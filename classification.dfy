/**
 * How the consumer classifies what the watchers emit. The counters and the
 * colour are chosen by looking for keywords anywhere in the text, so whether
 * an event lands in its own category depends on the free text it carries (a
 * window title, a process name, a file path). When that text contains none of
 * the keywords, every event is counted and coloured by its own kind and the
 * lifecycle messages count nowhere; when it does, the first keyword wins.
 */
module Classification {
  import opened Wrappers
  import opened Text
  import opened Events
  import opened Consumer
  import opened FileEvents

  /** The counter the event is meant for. */
  function Category(n: Notice): Option<Counter> {
    match n
    case WindowMinimized(_) => Some(WinMin)
    case WindowRestored(_) => Some(WinRestored)
    case ProcessStarted(_, _) => Some(ProcsStarted)
    case ProcessEnded(_) => Some(ProcsEnded)
    case FileCreated(_) => Some(FilesCreated)
    case FileDeleted(_) => Some(FilesDeleted)
    case MonitorStarted => None
    case MonitorStopping => None
    case MonitorStopped => None
  }

  /** The colour the event is meant to be shown in. */
  function Tint(n: Notice): string {
    match n
    case WindowRestored(_) => COLOR_RESTORED
    case FileCreated(_) => COLOR_FILE
    case FileDeleted(_) => COLOR_FILE
    case _ => COLOR_INFO
  }

  /** The free text the event carries. */
  function Detail(n: Notice): string {
    match n
    case WindowMinimized(title) => title
    case WindowRestored(title) => title
    case ProcessStarted(name, _) => name
    case ProcessEnded(_) => ""
    case FileCreated(path) => path
    case FileDeleted(path) => path
    case _ => ""
  }

  /** `s` contains none of the words the counters and the colour look for. */
  predicate Plain(s: string) {
    && (forall c: Counter :: !Contains(s, Keyword(c)))
    && !Contains(s, "Restored")
  }

  /** Behind a fixed lead that cannot start any keyword, only the rest of the text matters. */
  lemma AfterLabel(lead: string, rest: string, w: string)
    requires w != [] && Avoids(lead, w[0])
    ensures Contains(lead + rest, w) <==> Contains(rest, w)
  {
    ContainsAfter(lead, rest, w);
  }

  lemma MatchPrefix(lead: string, rest: string, w: string)
    requires |w| <= |lead| && lead[..|w|] == w
    ensures Contains(lead + rest, w)
  {
    assert (lead + rest)[0..|w|] == lead[..|w|];
    assert MatchAt(lead + rest, w, 0);
  }

  lemma ClassifyWindowMinimized(title: string)
    requires Plain(title)
    ensures CounterFor(Body(WindowMinimized(title))) == Some(WinMin)
    ensures ColorFor(Body(WindowMinimized(title))) == COLOR_INFO
  {
    var lead := "Window Minimized: ";
    assert Body(WindowMinimized(title)) == lead + title;
    AfterLabel(lead, title, "File Created");
    AfterLabel(lead, title, "File Deleted");
    AfterLabel(lead, title, "Process Started");
    AfterLabel(lead, title, "Process Ended");
    AfterLabel(lead, title, "Restored");
    assert !Contains(title, Keyword(FilesCreated));
    assert !Contains(title, Keyword(FilesDeleted));
    assert !Contains(title, Keyword(ProcsStarted));
    assert !Contains(title, Keyword(ProcsEnded));
    MatchPrefix(lead, title, "Window Minimized");
    MinimizedChosen(lead + title);
  }

  lemma MinimizedChosen(s: string)
    requires !Contains(s, "File Created") && !Contains(s, "File Deleted")
    requires !Contains(s, "Process Started") && !Contains(s, "Process Ended")
    requires Contains(s, "Window Minimized") && !Contains(s, "Restored")
    ensures CounterFor(s) == Some(WinMin) && ColorFor(s) == COLOR_INFO
  {
  }

  lemma ClassifyWindowRestored(title: string)
    requires Plain(title)
    ensures CounterFor(Body(WindowRestored(title))) == Some(WinRestored)
    ensures ColorFor(Body(WindowRestored(title))) == COLOR_RESTORED
  {
    var lead := "Window Restored: ";
    assert Body(WindowRestored(title)) == lead + title;
    AfterLabel(lead, title, "File Created");
    AfterLabel(lead, title, "File Deleted");
    AfterLabel(lead, title, "Process Started");
    AfterLabel(lead, title, "Process Ended");
    LeadGuarded("Window Restored: ", "Window Minimized", 7);
    ContainsAfter(lead, title, "Window Minimized");
    assert !Contains(title, Keyword(FilesCreated));
    assert !Contains(title, Keyword(FilesDeleted));
    assert !Contains(title, Keyword(ProcsStarted));
    assert !Contains(title, Keyword(ProcsEnded));
    assert !Contains(title, Keyword(WinMin));
    MatchPrefix(lead, title, "Window Restored");
    assert (lead + title)[7..15] == "Restored";
    assert MatchAt(lead + title, "Restored", 7);
    RestoredChosen(lead + title);
  }

  lemma RestoredChosen(s: string)
    requires !Contains(s, "File Created") && !Contains(s, "File Deleted")
    requires !Contains(s, "Process Started") && !Contains(s, "Process Ended")
    requires !Contains(s, "Window Minimized") && Contains(s, "Window Restored") && Contains(s, "Restored")
    ensures CounterFor(s) == Some(WinRestored) && ColorFor(s) == COLOR_RESTORED
  {
  }

  /** A fixed lead that starts like `w` but differs from it at position `k`, and holds
      `w`'s first letter nowhere else, cannot start an occurrence of `w`. */
  lemma LeadGuarded(lead: string, w: string, k: int)
    requires 0 < |w| <= |lead| && 0 <= k < |w| && lead[k] != w[k]
    requires lead[0] == w[0] && Avoids(lead[1..], w[0])
    ensures Guarded(lead, w)
  {
    assert lead[0..|w|] != w by {
      assert lead[0..|w|][k] == lead[k];
    }
    forall i | 0 <= i < |lead|
      ensures || lead[i] != w[0]
              || (i + 1 < |lead| && 1 < |w| && lead[i + 1] != w[1])
              || (i + |w| <= |lead| && lead[i..i + |w|] != w)
    {
      if i > 0 {
        assert lead[1..][i - 1] == lead[i];
      }
    }
  }

  /** `Process Ended: PID ` followed by digits never contains `Process Started`. */
  lemma EndedTextNoStarted(digits: string)
    requires Avoids(digits, 'P')
    ensures !Contains("Process Ended: PID " + digits, "Process Started")
  {
    var l1, l2, w := "Process Ended: ", "PID ", "Process Started";
    assert "Process Ended: PID " + digits == l1 + (l2 + digits);
    LeadGuarded(l1, w, 8);
    ContainsAfter(l1, l2 + digits, w);
    assert Guarded(l2, w);
    ContainsAfter(l2, digits, w);
    NotContainsAvoiding(digits, w);
  }

  /** Inside a `Process Started` message, a word that cannot start in the fixed text and
      cannot straddle the ` (PID ` that follows the name occurs only within the name. */
  lemma StartedSearch(name: string, digits: string, w: string)
    requires forall i | 0 <= i < |digits| :: IsDigit(digits[i])
    requires w != [] && '(' !in w && w[|w| - 1] != ' ' && !IsDigit(w[0])
    requires w[0] !in "Process Started: PID )"
    ensures Contains("Process Started: " + name + " (PID " + digits + ")", w) <==> Contains(name, w)
  {
    var lead := "Process Started: ";
    var head, tail := lead + name + " ", "PID " + digits + ")";
    assert lead + name + " (PID " + digits + ")" == head + ['('] + tail;
    ContainsAround(head, '(', tail, w);
    ContainsBeforeChar(lead + name, ' ', w);
    AfterLabel(lead, name, w);
    NotContainsAvoiding(tail, w);
  }

  lemma ClassifyProcessStarted(name: string, pid: nat)
    requires Plain(name)
    ensures CounterFor(Body(ProcessStarted(name, pid))) == Some(ProcsStarted)
    ensures ColorFor(Body(ProcessStarted(name, pid))) == COLOR_INFO
  {
    var digits := NatToString(pid);
    NatToStringDigits(pid);
    assert Body(ProcessStarted(name, pid)) == "Process Started: " + name + " (PID " + digits + ")";
    StartedBodyKeywords(name, digits);
    StartedChosen("Process Started: " + name + " (PID " + digits + ")");
  }

  /** Which words a `Process Started` message with a keyword-free name contains. */
  lemma StartedBodyKeywords(name: string, digits: string)
    requires Plain(name)
    requires forall i | 0 <= i < |digits| :: IsDigit(digits[i])
    ensures !Contains("Process Started: " + name + " (PID " + digits + ")", "File Created")
    ensures !Contains("Process Started: " + name + " (PID " + digits + ")", "File Deleted")
    ensures !Contains("Process Started: " + name + " (PID " + digits + ")", "Restored")
    ensures Contains("Process Started: " + name + " (PID " + digits + ")", "Process Started")
  {
    var lead := "Process Started: ";
    var rest := name + " (PID " + digits + ")";
    StartedSearch(name, digits, "File Created");
    StartedSearch(name, digits, "File Deleted");
    StartedSearch(name, digits, "Restored");
    assert !Contains(name, Keyword(FilesCreated));
    assert !Contains(name, Keyword(FilesDeleted));
    assert lead + name + " (PID " + digits + ")" == lead + rest;
    MatchPrefix(lead, rest, "Process Started");
  }

  lemma StartedChosen(s: string)
    requires !Contains(s, "File Created") && !Contains(s, "File Deleted")
    requires Contains(s, "Process Started") && !Contains(s, "Restored")
    ensures CounterFor(s) == Some(ProcsStarted) && ColorFor(s) == COLOR_INFO
  {
  }

  /** A text without any of the letters that start the keywords is counted nowhere and
      shown in the plain colour. */
  lemma Unclassified(s: string)
    requires Avoids(s, 'F') && Avoids(s, 'P') && Avoids(s, 'W') && Avoids(s, 'R')
    ensures CounterFor(s) == None
    ensures ColorFor(s) == COLOR_INFO
  {
    NotContainsAvoiding(s, "File Created");
    NotContainsAvoiding(s, "File Deleted");
    NotContainsAvoiding(s, "Process Started");
    NotContainsAvoiding(s, "Process Ended");
    NotContainsAvoiding(s, "Window Minimized");
    NotContainsAvoiding(s, "Window Restored");
    NotContainsAvoiding(s, "Restored");
  }

  lemma ClassifyProcessEnded(pid: nat)
    ensures CounterFor(Body(ProcessEnded(pid))) == Some(ProcsEnded)
    ensures ColorFor(Body(ProcessEnded(pid))) == COLOR_INFO
  {
    var lead, digits := "Process Ended: PID ", NatToString(pid);
    assert Body(ProcessEnded(pid)) == lead + digits;
    NatToStringDigits(pid);
    DigitsAvoid(digits, 'F');
    DigitsAvoid(digits, 'P');
    DigitsAvoid(digits, 'R');
    AfterLabel(lead, digits, "File Created");
    AfterLabel(lead, digits, "File Deleted");
    AfterLabel(lead, digits, "Restored");
    NotContainsAvoiding(digits, "File Created");
    NotContainsAvoiding(digits, "File Deleted");
    NotContainsAvoiding(digits, "Restored");
    EndedTextNoStarted(digits);
    MatchPrefix(lead, digits, "Process Ended");
    EndedChosen(lead + digits);
  }

  lemma EndedChosen(s: string)
    requires !Contains(s, "File Created") && !Contains(s, "File Deleted")
    requires !Contains(s, "Process Started") && Contains(s, "Process Ended") && !Contains(s, "Restored")
    ensures CounterFor(s) == Some(ProcsEnded) && ColorFor(s) == COLOR_INFO
  {
  }

  lemma ClassifyFileCreated(path: string)
    requires Plain(path)
    ensures CounterFor(Body(FileCreated(path))) == Some(FilesCreated)
    ensures ColorFor(Body(FileCreated(path))) == COLOR_FILE
  {
    var lead := "File Created: ";
    assert Body(FileCreated(path)) == lead + path;
    AfterLabel(lead, path, "Restored");
    MatchPrefix(lead, path, "File Created");
  }

  lemma ClassifyFileDeleted(path: string)
    requires Plain(path)
    ensures CounterFor(Body(FileDeleted(path))) == Some(FilesDeleted)
    ensures ColorFor(Body(FileDeleted(path))) == COLOR_FILE
  {
    var lead := "File Deleted: ";
    assert Body(FileDeleted(path)) == lead + path;
    AfterLabel(lead, path, "Restored");
    LeadGuarded("File Deleted: ", "File Created", 5);
    ContainsAfter(lead, path, "File Created");
    assert !Contains(path, Keyword(FilesCreated));
    MatchPrefix(lead, path, "File Deleted");
  }

  lemma ClassifyLifecycle(n: Notice)
    requires n in {MonitorStarted, MonitorStopping, MonitorStopped}
    ensures CounterFor(Body(n)) == None
    ensures ColorFor(Body(n)) == COLOR_INFO
  {
    Unclassified(Body(n));
  }

  /** The stamp and marker never change the classification: counter and colour are those
      of the message. */
  lemma ClassifyThroughFrame(n: Notice, now: DateTime)
    ensures CounterFor(Render(n, now)) == CounterFor(Body(n))
    ensures ColorFor(Render(n, now)) == ColorFor(Body(n))
  {
    FrameTransparent(n, now, "File Created");
    FrameTransparent(n, now, "File Deleted");
    FrameTransparent(n, now, "Process Started");
    FrameTransparent(n, now, "Process Ended");
    FrameTransparent(n, now, "Window Minimized");
    FrameTransparent(n, now, "Window Restored");
    FrameTransparent(n, now, "Restored");
  }

  /** An event whose free text contains no keyword is counted under its own category and
      shown in its own colour; the three lifecycle messages are counted nowhere. */
  lemma ClassifyRendered(n: Notice, now: DateTime)
    requires Plain(Detail(n))
    ensures CounterFor(Render(n, now)) == Category(n)
    ensures ColorFor(Render(n, now)) == Tint(n)
  {
    ClassifyThroughFrame(n, now);
    match n
    case WindowMinimized(title) => ClassifyWindowMinimized(title);
    case WindowRestored(title) => ClassifyWindowRestored(title);
    case ProcessStarted(name, pid) => ClassifyProcessStarted(name, pid);
    case ProcessEnded(pid) => ClassifyProcessEnded(pid);
    case FileCreated(path) => ClassifyFileCreated(path);
    case FileDeleted(path) => ClassifyFileDeleted(path);
    case MonitorStarted => ClassifyLifecycle(n);
    case MonitorStopping => ClassifyLifecycle(n);
    case MonitorStopped => ClassifyLifecycle(n);
  }

  /** The `[i]` messages of the Start and Stop buttons leave every counter as it was and
      are shown in the plain colour. */
  lemma LifecycleLeavesCounts(counts: Counts, n: Notice, now: DateTime)
    requires Complete(counts)
    requires n in {MonitorStarted, MonitorStopping, MonitorStopped}
    ensures Bump(counts, Render(n, now)) == counts
    ensures ColorFor(Render(n, now)) == COLOR_INFO
  {
    ClassifyThroughFrame(n, now);
    ClassifyLifecycle(n);
  }

  /** The keyword search does look inside free text: a minimized window whose title is
      "File Created" is counted as a created file. */
  lemma TitleSteersCounter(now: DateTime)
    ensures CounterFor(Render(WindowMinimized("File Created"), now)) == Some(FilesCreated)
  {
    ClassifyThroughFrame(WindowMinimized("File Created"), now);
    assert Body(WindowMinimized("File Created")) == "Window Minimized: " + "File Created";
    assert MatchAt("Window Minimized: " + "File Created", "File Created", 18);
  }

  /** Events from every source, each with the clock reading at which it was emitted. */
  function RenderStamped(xs: seq<(Notice, DateTime)>): seq<string> {
    seq(|xs|, i requires 0 <= i < |xs| => Render(xs[i].0, xs[i].1))
  }

  /** How many of the events are meant for counter `c`. */
  function CategoryCount(xs: seq<(Notice, DateTime)>, c: Counter): nat
    decreases |xs|
  {
    if xs == [] then 0 else (if Category(xs[0].0) == Some(c) then 1 else 0) + CategoryCount(xs[1..], c)
  }

  /** A run of events whose free texts contain no keyword is counted exactly: each counter
      goes up by the number of events of its category, whatever the interleaving. */
  lemma {:induction false} ScriptedRunCounts(counts: Counts, xs: seq<(Notice, DateTime)>, c: Counter)
    requires Complete(counts)
    requires forall i | 0 <= i < |xs| :: Plain(Detail(xs[i].0))
    ensures Drain(counts, RenderStamped(xs))[c] == counts[c] + CategoryCount(xs, c)
  {
    DrainTally(counts, RenderStamped(xs), c);
    TallyOfPlain(xs, c);
  }

  lemma {:induction false} TallyOfPlain(xs: seq<(Notice, DateTime)>, c: Counter)
    requires forall i | 0 <= i < |xs| :: Plain(Detail(xs[i].0))
    ensures Tally(RenderStamped(xs), c) == CategoryCount(xs, c)
    decreases |xs|
  {
    if xs != [] {
      ClassifyRendered(xs[0].0, xs[0].1);
      assert RenderStamped(xs)[1..] == RenderStamped(xs[1..]);
      TallyOfPlain(xs[1..], c);
    }
  }

  /** A file move whose paths contain no keyword adds one to the deleted-files counter
      when the old path is a program file, one to the created-files counter when the new
      path is, and nothing to any other counter. */
  lemma MoveTallied(e: FsEvent, now: DateTime, c: Counter)
    requires Plain(e.srcPath) && Plain(e.destPath)
    ensures Tally(OnMoved(e, now), c) ==
              (if !e.isDirectory && IsTarget(e.srcPath) && c == FilesDeleted then 1 else 0)
              + (if !e.isDirectory && IsTarget(e.destPath) && c == FilesCreated then 1 else 0)
  {
    var del := if IsTarget(e.srcPath) then [Render(FileDeleted(e.srcPath), now)] else [];
    var cre := if IsTarget(e.destPath) then [Render(FileCreated(e.destPath), now)] else [];
    ClassifyRendered(FileDeleted(e.srcPath), now);
    ClassifyRendered(FileCreated(e.destPath), now);
    if !e.isDirectory {
      assert OnMoved(e, now) == del + cre;
      TallyConcat(del, cre, c);
    }
  }
}
