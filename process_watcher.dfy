/**
 * One polling cycle of the process watcher. The watcher remembers the set of
 * process ids it saw last (`procs`). Each cycle it takes the ids running now,
 * reports every id that is new, with the process's name, and every id that is
 * gone, and then remembers the new set. The operating system is a parameter:
 * `cur` is the set of running ids and `name` is the name lookup, which fails
 * (`None`) when the process exited before it could be asked; such a process
 * is not reported. Sets are iterated in an order the model does not fix: the
 * loops return the order they took, and the cycle passes it on as ghost values.
 */
module ProcessWatch {
  import opened Wrappers
  import opened Events

  type Pid = nat

  predicate Distinct(s: seq<Pid>) {
    forall i, j | 0 <= i < j < |s| :: s[i] != s[j]
  }

  /** `s` lists every element of `S` once and nothing else: an iteration order of `S`. */
  predicate Enumerates(s: seq<Pid>, S: set<Pid>) {
    && Distinct(s)
    && (forall i | 0 <= i < |s| :: s[i] in S)
    && (forall p | p in S :: p in s)
  }

  /** What a new process contributes: a `Process Started` notice when its name is known. */
  function StartedOf(p: Pid, name: Pid -> Option<string>): seq<Notice> {
    match name(p)
    case None => []
    case Some(n) => [ProcessStarted(n, p)]
  }

  /** The notices for the new processes, visited in the order `born`. */
  function StartedNotices(born: seq<Pid>, name: Pid -> Option<string>): seq<Notice>
    decreases |born|
  {
    if born == [] then []
    else StartedNotices(born[..|born| - 1], name) + StartedOf(born[|born| - 1], name)
  }

  /** The notices for the processes that are gone, visited in the order `died`. */
  function EndedNotices(died: seq<Pid>): seq<Notice>
    decreases |died|
  {
    if died == [] then [] else EndedNotices(died[..|died| - 1]) + [ProcessEnded(died[|died| - 1])]
  }

  class ProcessWatcher {
    var procs: set<Pid>

    /** The watcher starts from the processes running when it is created. */
    constructor(running: set<Pid>)
      ensures procs == running
    {
      procs := running;
    }

    /** One iteration of the polling loop. */
    method Poll(cur: set<Pid>, name: Pid -> Option<string>, now: DateTime)
      returns (events: seq<string>, ghost born: seq<Pid>, ghost died: seq<Pid>)
      modifies this
      ensures Enumerates(born, cur - old(procs))
      ensures Enumerates(died, old(procs) - cur)
      ensures events == RenderAll(StartedNotices(born, name) + EndedNotices(died), now)
      ensures procs == cur
    {
      var newPids := cur - procs;
      var dead := procs - cur;
      var started, ended;
      started, born := AnnounceStarted(newPids, name, now);
      ended, died := AnnounceEnded(dead, now);
      RenderAllConcat(StartedNotices(born, name), EndedNotices(died), now);
      events := started + ended;
      procs := cur;
    }
  }

  /** The loop over the new processes: report each one whose name can still be read. */
  method AnnounceStarted(newPids: set<Pid>, name: Pid -> Option<string>, now: DateTime)
    returns (events: seq<string>, born: seq<Pid>)
    ensures Enumerates(born, newPids)
    ensures events == RenderAll(StartedNotices(born, name), now)
  {
    events, born := [], [];
    var todo := newPids;
    while todo != {}
      invariant todo <= newPids
      invariant Enumerates(born, newPids - todo)
      invariant events == RenderAll(StartedNotices(born, name), now)
      decreases |todo|
    {
      NonEmptyHasElement(todo);
      var pid :| pid in todo;
      var known := name(pid);
      StartedStep(born, pid, name, now);
      EnumeratesStep(born, newPids, todo, pid);
      var line: seq<string> := [];
      if known.Some? {
        line := [Render(ProcessStarted(known.value, pid), now)];
      }
      assert line == RenderAll(StartedOf(pid, name), now);
      events := events + line;
      born := born + [pid];
      todo := todo - {pid};
    }
    assert newPids - todo == newPids;
  }

  /** The loop over the processes that are gone: report each one. */
  method AnnounceEnded(dead: set<Pid>, now: DateTime) returns (events: seq<string>, died: seq<Pid>)
    ensures Enumerates(died, dead)
    ensures events == RenderAll(EndedNotices(died), now)
  {
    events, died := [], [];
    var todo := dead;
    while todo != {}
      invariant todo <= dead
      invariant Enumerates(died, dead - todo)
      invariant events == RenderAll(EndedNotices(died), now)
      decreases |todo|
    {
      NonEmptyHasElement(todo);
      var pid :| pid in todo;
      EndedStep(died, pid, now);
      EnumeratesStep(died, dead, todo, pid);
      events := events + [Render(ProcessEnded(pid), now)];
      died := died + [pid];
      todo := todo - {pid};
    }
    assert dead - todo == dead;
  }

  /** Visiting one more element of what is left extends the iteration order. */
  lemma EnumeratesStep(s: seq<Pid>, all: set<Pid>, todo: set<Pid>, p: Pid)
    requires todo <= all && Enumerates(s, all - todo) && p in todo
    ensures Enumerates(s + [p], all - (todo - {p}))
  {
    assert all - (todo - {p}) == (all - todo) + {p};
  }

  lemma StartedStep(born: seq<Pid>, p: Pid, name: Pid -> Option<string>, now: DateTime)
    ensures StartedNotices(born + [p], name) == StartedNotices(born, name) + StartedOf(p, name)
    ensures RenderAll(StartedNotices(born + [p], name), now) ==
              RenderAll(StartedNotices(born, name), now) + RenderAll(StartedOf(p, name), now)
  {
    assert (born + [p])[..|born|] == born;
    RenderAllConcat(StartedNotices(born, name), StartedOf(p, name), now);
  }

  lemma EndedStep(died: seq<Pid>, p: Pid, now: DateTime)
    ensures EndedNotices(died + [p]) == EndedNotices(died) + [ProcessEnded(p)]
    ensures RenderAll(EndedNotices(died + [p]), now) == RenderAll(EndedNotices(died), now) + [Render(ProcessEnded(p), now)]
  {
    assert (died + [p])[..|died|] == died;
    RenderAllConcat(EndedNotices(died), [ProcessEnded(p)], now);
  }

  /** In a list without repetitions every element occurs once. */
  lemma {:induction false} DistinctCount(s: seq<Pid>, p: Pid)
    requires Distinct(s)
    ensures multiset(s)[p] == if p in s then 1 else 0
    decreases |s|
  {
    if s != [] {
      var t := s[..|s| - 1];
      assert s == t + [s[|s| - 1]];
      DistinctCount(t, p);
      if p == s[|s| - 1] {
        assert p !in t;
      }
    }
  }

  lemma {:induction false} EndedCount(died: seq<Pid>, p: Pid)
    ensures multiset(EndedNotices(died))[ProcessEnded(p)] == multiset(died)[p]
    decreases |died|
  {
    if died != [] {
      var t := died[..|died| - 1];
      assert died == t + [died[|died| - 1]];
      EndedCount(t, p);
    }
  }

  /** Every process that is gone gets exactly one `Process Ended` notice, and no other
      process gets one. */
  lemma EndedExactlyOnce(died: seq<Pid>, gone: set<Pid>, p: Pid)
    requires Enumerates(died, gone)
    ensures multiset(EndedNotices(died))[ProcessEnded(p)] == if p in gone then 1 else 0
  {
    EndedCount(died, p);
    DistinctCount(died, p);
  }

  lemma {:induction false} StartedCount(born: seq<Pid>, name: Pid -> Option<string>, p: Pid, n: string)
    ensures multiset(StartedNotices(born, name))[ProcessStarted(n, p)] ==
              if name(p) == Some(n) then multiset(born)[p] else 0
    decreases |born|
  {
    if born != [] {
      var t := born[..|born| - 1];
      assert born == t + [born[|born| - 1]];
      StartedCount(t, name, p, n);
    }
  }

  /** A new process is reported once, under the name the lookup gives, and not at all
      when the lookup fails; nothing else is reported as started. */
  lemma StartedAtMostOnce(born: seq<Pid>, appeared: set<Pid>, name: Pid -> Option<string>, p: Pid, n: string)
    requires Enumerates(born, appeared)
    ensures multiset(StartedNotices(born, name))[ProcessStarted(n, p)] ==
              if p in appeared && name(p) == Some(n) then 1 else 0
  {
    StartedCount(born, name, p, n);
    DistinctCount(born, p);
  }

  /** Every started notice is for a visited process whose name the lookup returned. */
  lemma {:induction false} StartedWellFormed(born: seq<Pid>, name: Pid -> Option<string>)
    ensures forall m | m in StartedNotices(born, name) ::
              m.ProcessStarted? && m.pid in born && name(m.pid) == Some(m.name)
    decreases |born|
  {
    if born != [] {
      var t := born[..|born| - 1];
      StartedWellFormed(t, name);
      assert forall q | q in t :: q in born;
    }
  }

  /** The direction marker can be read off the emitted text at a fixed position. */
  lemma MarkerVisible(n: Notice, now: DateTime)
    ensures |Render(n, now)| > 23 && Render(n, now)[23] == Marker(n)[1]
  {
    TsLayout(now);
    assert Render(n, now) == "[" + Ts(now) + "] " + Marker(n) + " " + Body(n);
  }

  /** The emitted text of a `Process Ended` notice is the text of no other notice a
      cycle emits. */
  lemma EndedTextUnique(m: Notice, p: Pid, now: DateTime)
    requires m.ProcessStarted? || m.ProcessEnded?
    requires Render(m, now) == Render(ProcessEnded(p), now)
    ensures m == ProcessEnded(p)
  {
    MarkerVisible(m, now);
    MarkerVisible(ProcessEnded(p), now);
    if m.ProcessEnded? {
      EndedRenderInjective(m.pid, p, now);
    }
  }

  /** A sequence of images `rs` of `ns` under `f` holds the image of `n` as often as `ns`
      holds `n`, when nothing else in `ns` has that image. */
  lemma {:induction false} ImageCount(ns: seq<Notice>, rs: seq<string>, f: Notice -> string, n: Notice)
    requires |rs| == |ns| && forall i | 0 <= i < |ns| :: rs[i] == f(ns[i])
    requires forall m | m in ns && f(m) == f(n) :: m == n
    ensures multiset(rs)[f(n)] == multiset(ns)[n]
    decreases |ns|
  {
    if ns != [] {
      var k := |ns| - 1;
      assert ns == ns[..k] + [ns[k]];
      assert rs == rs[..k] + [rs[k]];
      assert forall m | m in ns[..k] :: m in ns;
      ImageCount(ns[..k], rs[..k], f, n);
    }
  }

  /** Rendering keeps the number of copies of a notice whose text no other notice in the
      sequence shares. */
  lemma RenderCount(ns: seq<Notice>, n: Notice, now: DateTime)
    requires forall m | m in ns && Render(m, now) == Render(n, now) :: m == n
    ensures multiset(RenderAll(ns, now))[Render(n, now)] == multiset(ns)[n]
  {
    ImageCount(ns, RenderAll(ns, now), (m: Notice) => Render(m, now), n);
  }

  /** What the consumer receives from a cycle holds the text of a gone process's
      `Process Ended` event exactly once, and that of any other id not at all. */
  lemma EndedTextExactlyOnce(born: seq<Pid>, died: seq<Pid>, gone: set<Pid>, name: Pid -> Option<string>, p: Pid, now: DateTime)
    requires Enumerates(died, gone)
    ensures multiset(RenderAll(StartedNotices(born, name) + EndedNotices(died), now))[Render(ProcessEnded(p), now)] ==
              if p in gone then 1 else 0
  {
    var ns := StartedNotices(born, name) + EndedNotices(died);
    StartedWellFormed(born, name);
    EndedWellFormed(died);
    forall m | m in ns && Render(m, now) == Render(ProcessEnded(p), now)
      ensures m == ProcessEnded(p)
    {
      EndedTextUnique(m, p, now);
    }
    RenderCount(ns, ProcessEnded(p), now);
    EndedExactlyOnce(died, gone, p);
    assert multiset(StartedNotices(born, name))[ProcessEnded(p)] == 0;
  }

  lemma {:induction false} EndedWellFormed(died: seq<Pid>)
    ensures forall m | m in EndedNotices(died) :: m.ProcessEnded? && m.pid in died
    decreases |died|
  {
    if died != [] {
      var t := died[..|died| - 1];
      EndedWellFormed(t);
      assert forall q | q in t :: q in died;
    }
  }

  /** An iteration order of a set is as long as the set is large. */
  lemma {:induction false} EnumerationSize(s: seq<Pid>, S: set<Pid>)
    requires Enumerates(s, S)
    ensures |s| == |S|
    decreases |s|
  {
    if s == [] {
      assert S == {};
    } else {
      var t, x := s[..|s| - 1], s[|s| - 1];
      assert forall i | 0 <= i < |t| :: t[i] == s[i];
      assert Enumerates(t, S - {x});
      EnumerationSize(t, S - {x});
    }
  }

  /** A cycle that sees exactly the processes of the previous one emits nothing. */
  lemma UnchangedSnapshotSilent(procs: set<Pid>, born: seq<Pid>, died: seq<Pid>, name: Pid -> Option<string>, now: DateTime)
    requires Enumerates(born, procs - procs) && Enumerates(died, procs - procs)
    ensures RenderAll(StartedNotices(born, name) + EndedNotices(died), now) == []
  {
    assert procs - procs == {};
    EnumerationSize(born, procs - procs);
    EnumerationSize(died, procs - procs);
  }
}
