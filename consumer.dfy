/**
 * The consumer side of the monitor window: the message queue `msg_q` that the
 * watchers' signals fill through `_enqueue`, the six running counters that
 * `_update_counts` keeps by first-matching keyword, the colour `_color_for`
 * picks for a message, and the timer-driven drain that empties the queue into
 * the log. The Qt text widget is modelled by the sequence of (message, colour)
 * pairs it is given.
 */
module Consumer {
  import opened Wrappers
  import opened Text

  const COLOR_RESTORED := "#2ecc71"
  const COLOR_FILE := "#00c8ff"
  const COLOR_INFO := "#dcdcdc"

  /** The six keys of `counts`. */
  datatype Counter = FilesCreated | FilesDeleted | ProcsStarted | ProcsEnded | WinMin | WinRestored

  /** The word whose presence in a message selects the counter. */
  function Keyword(c: Counter): string {
    match c
    case FilesCreated => "File Created"
    case FilesDeleted => "File Deleted"
    case ProcsStarted => "Process Started"
    case ProcsEnded => "Process Ended"
    case WinMin => "Window Minimized"
    case WinRestored => "Window Restored"
  }

  /** The position of the counter's test in the `if`/`elif` chain. */
  function Rank(c: Counter): nat {
    match c
    case FilesCreated => 0
    case FilesDeleted => 1
    case ProcsStarted => 2
    case ProcsEnded => 3
    case WinMin => 4
    case WinRestored => 5
  }

  /** The counter `_update_counts` increments for `msg`, if any: the first keyword of the
      chain that occurs in the message wins; a message with none of them counts nowhere. */
  function CounterFor(msg: string): Option<Counter> {
    if Contains(msg, "File Created") then Some(FilesCreated)
    else if Contains(msg, "File Deleted") then Some(FilesDeleted)
    else if Contains(msg, "Process Started") then Some(ProcsStarted)
    else if Contains(msg, "Process Ended") then Some(ProcsEnded)
    else if Contains(msg, "Window Minimized") then Some(WinMin)
    else if Contains(msg, "Window Restored") then Some(WinRestored)
    else None
  }

  /** The chain is a first-match search through the keywords in rank order: the counter
      chosen has its keyword in the message and no counter of lower rank does, and no counter
      is chosen exactly when no keyword occurs. */
  lemma CounterForFirstMatch(msg: string)
    ensures CounterFor(msg).Some? ==> Contains(msg, Keyword(CounterFor(msg).value))
    ensures CounterFor(msg).Some? ==>
              forall c: Counter | Rank(c) < Rank(CounterFor(msg).value) :: !Contains(msg, Keyword(c))
    ensures CounterFor(msg).None? <==> forall c: Counter :: !Contains(msg, Keyword(c))
  {
  }

  /** `_color_for`. */
  function ColorFor(msg: string): string {
    if Contains(msg, "Restored") then COLOR_RESTORED
    else if Contains(msg, "File Created") || Contains(msg, "File Deleted") then COLOR_FILE
    else COLOR_INFO
  }

  /** A message counted as a window restore is always shown in the restore colour, and one
      counted as a file event is shown in the file colour unless it also mentions "Restored". */
  lemma ColorAgreesWithCounter(msg: string)
    ensures CounterFor(msg) == Some(WinRestored) ==> ColorFor(msg) == COLOR_RESTORED
    ensures CounterFor(msg) in {Some(FilesCreated), Some(FilesDeleted)} ==>
              ColorFor(msg) == (if Contains(msg, "Restored") then COLOR_RESTORED else COLOR_FILE)
    ensures CounterFor(msg) in {None, Some(ProcsStarted), Some(ProcsEnded), Some(WinMin)} ==>
              ColorFor(msg) == (if Contains(msg, "Restored") then COLOR_RESTORED else COLOR_INFO)
  {
    if Contains(msg, "Window Restored") {
      var i :| 0 <= i <= |msg| - 15 && MatchAt(msg, "Window Restored", i);
      assert msg[i + 7..i + 15] == msg[i..i + 15][7..15];
      assert MatchAt(msg, "Restored", i + 7);
    }
  }

  type Counts = map<Counter, nat>

  /** Every counter has a value (`defaultdict(int)`, read once for each key at start-up). */
  ghost predicate Complete(counts: Counts) {
    forall c: Counter :: c in counts
  }

  /** `defaultdict(int)` once all six keys have been read: every counter at zero. */
  function Zero(): Counts {
    map[FilesCreated := 0, FilesDeleted := 0, ProcsStarted := 0, ProcsEnded := 0, WinMin := 0, WinRestored := 0]
  }

  lemma ZeroComplete()
    ensures Complete(Zero())
    ensures forall c: Counter :: Zero()[c] == 0
  {
    forall c: Counter ensures c in Zero() {
      match c
      case FilesCreated =>
      case FilesDeleted =>
      case ProcsStarted =>
      case ProcsEnded =>
      case WinMin =>
      case WinRestored =>
    }
  }

  /** The sum of all six counters. */
  function Total(counts: Counts): nat
    requires Complete(counts)
  {
    counts[FilesCreated] + counts[FilesDeleted] + counts[ProcsStarted]
      + counts[ProcsEnded] + counts[WinMin] + counts[WinRestored]
  }

  /** The counters after `_update_counts(msg)`. */
  function Bump(counts: Counts, msg: string): (r: Counts)
    requires Complete(counts)
    ensures Complete(r)
  {
    match CounterFor(msg)
    case None => counts
    case Some(c) => counts[c := counts[c] + 1]
  }

  /** `_update_counts` raises the counter of the first matching keyword by exactly one and
      leaves the other five alone; a message without a keyword changes nothing. */
  lemma BumpChangesOneCounter(counts: Counts, msg: string)
    requires Complete(counts)
    ensures forall c: Counter :: Bump(counts, msg)[c] == counts[c] + (if CounterFor(msg) == Some(c) then 1 else 0)
    ensures forall c: Counter :: counts[c] <= Bump(counts, msg)[c]
    ensures Total(Bump(counts, msg)) == Total(counts) + (if CounterFor(msg).Some? then 1 else 0)
  {
  }

  /** The counters after `_update_counts` has seen each of `msgs` in turn. */
  function Drain(counts: Counts, msgs: seq<string>): (r: Counts)
    requires Complete(counts)
    ensures Complete(r)
    decreases |msgs|
  {
    if msgs == [] then counts else Drain(Bump(counts, msgs[0]), msgs[1..])
  }

  /** How many of `msgs` count towards `c`. */
  function Tally(msgs: seq<string>, c: Counter): nat
    decreases |msgs|
  {
    if msgs == [] then 0 else (if CounterFor(msgs[0]) == Some(c) then 1 else 0) + Tally(msgs[1..], c)
  }

  lemma {:induction false} TallyConcat(a: seq<string>, b: seq<string>, c: Counter)
    ensures Tally(a + b, c) == Tally(a, c) + Tally(b, c)
    decreases |a|
  {
    if a != [] {
      assert (a + b)[0] == a[0];
      assert (a + b)[1..] == a[1..] + b;
      TallyConcat(a[1..], b, c);
    } else {
      assert a + b == b;
    }
  }

  /** Each counter ends at its old value plus the number of messages that count towards it. */
  lemma {:induction false} DrainTally(counts: Counts, msgs: seq<string>, c: Counter)
    requires Complete(counts)
    ensures Drain(counts, msgs)[c] == counts[c] + Tally(msgs, c)
    decreases |msgs|
  {
    if msgs != [] {
      BumpChangesOneCounter(counts, msgs[0]);
      DrainTally(Bump(counts, msgs[0]), msgs[1..], c);
    }
  }

  /** Counters never decrease. */
  lemma DrainMonotone(counts: Counts, msgs: seq<string>)
    requires Complete(counts)
    ensures forall c: Counter :: counts[c] <= Drain(counts, msgs)[c]
  {
    forall c: Counter ensures counts[c] <= Drain(counts, msgs)[c] {
      DrainTally(counts, msgs, c);
    }
  }

  /** The counts reached depend only on which messages arrived, not on their interleaving. */
  lemma {:induction false} TallyPermutation(a: seq<string>, b: seq<string>, c: Counter)
    requires multiset(a) == multiset(b)
    ensures Tally(a, c) == Tally(b, c)
    decreases |a|
  {
    if a != [] {
      assert a[0] in multiset(b);
      var i :| 0 <= i < |b| && b[i] == a[0];
      var rest := b[..i] + b[i + 1..];
      RemoveMatching(a, b, i);
      TallyPermutation(a[1..], rest, c);
      TallySplit(b, i, c);
    } else {
      assert |multiset(b)| == 0;
    }
  }

  lemma RemoveMatching(a: seq<string>, b: seq<string>, i: int)
    requires multiset(a) == multiset(b) && a != [] && 0 <= i < |b| && b[i] == a[0]
    ensures multiset(a[1..]) == multiset(b[..i] + b[i + 1..])
  {
    assert b == b[..i] + [b[i]] + b[i + 1..];
    assert a == [a[0]] + a[1..];
    assert multiset(a[1..]) == multiset(a) - multiset{a[0]};
    assert multiset(b[..i] + b[i + 1..]) == multiset(b) - multiset{a[0]};
  }

  lemma TallySplit(b: seq<string>, i: int, c: Counter)
    requires 0 <= i < |b|
    ensures Tally(b, c) == Tally(b[..i] + b[i + 1..], c) + (if CounterFor(b[i]) == Some(c) then 1 else 0)
  {
    assert b == b[..i] + [b[i]] + b[i + 1..];
    TallyConcat(b[..i] + [b[i]], b[i + 1..], c);
    TallyConcat(b[..i], [b[i]], c);
    TallyConcat(b[..i], b[i + 1..], c);
    assert [b[i]][1..] == [];
  }

  /** Draining the same messages in any order leaves the same counters. */
  lemma DrainOrderIrrelevant(counts: Counts, a: seq<string>, b: seq<string>)
    requires Complete(counts)
    requires multiset(a) == multiset(b)
    ensures Drain(counts, a) == Drain(counts, b)
  {
    forall c: Counter ensures Drain(counts, a)[c] == Drain(counts, b)[c] {
      DrainTally(counts, a, c);
      DrainTally(counts, b, c);
      TallyPermutation(a, b, c);
    }
  }

  /** The log lines the drain appends for `msgs`: each message with its colour. */
  function LogOf(msgs: seq<string>): seq<(string, string)>
    decreases |msgs|
  {
    if msgs == [] then [] else [(msgs[0], ColorFor(msgs[0]))] + LogOf(msgs[1..])
  }

  /** The log keeps the queue's order, one line per message. */
  lemma {:induction false} LogOfInOrder(msgs: seq<string>)
    ensures |LogOf(msgs)| == |msgs|
    ensures forall i | 0 <= i < |msgs| :: LogOf(msgs)[i] == (msgs[i], ColorFor(msgs[i]))
    decreases |msgs|
  {
    if msgs != [] {
      LogOfInOrder(msgs[1..]);
    }
  }

  lemma {:induction false} LogOfConcat(a: seq<string>, b: seq<string>)
    ensures LogOf(a + b) == LogOf(a) + LogOf(b)
    decreases |a|
  {
    if a != [] {
      assert (a + b)[0] == a[0];
      assert (a + b)[1..] == a[1..] + b;
      LogOfConcat(a[1..], b);
    } else {
      assert a + b == b;
    }
  }

  lemma {:induction false} DrainConcat(counts: Counts, a: seq<string>, b: seq<string>)
    requires Complete(counts)
    ensures Drain(counts, a + b) == Drain(Drain(counts, a), b)
    decreases |a|
  {
    if a != [] {
      assert (a + b)[0] == a[0];
      assert (a + b)[1..] == a[1..] + b;
      DrainConcat(Bump(counts, a[0]), a[1..], b);
    } else {
      assert a + b == b;
    }
  }

  /** The UI's message side: the queue, the six counters and the log. */
  class EventConsumer {
    var msgQ: seq<string>
    var counts: Counts
    var log: seq<(string, string)>

    ghost predicate Valid()
      reads this
    {
      Complete(counts)
    }

    constructor()
      ensures Valid()
      ensures msgQ == [] && log == []
      ensures forall c: Counter :: counts[c] == 0
    {
      msgQ := [];
      counts := Zero();
      log := [];
      ZeroComplete();
    }

    /** `_enqueue`: the message joins the back of the queue. */
    method Enqueue(msg: string)
      modifies this
      ensures msgQ == old(msgQ) + [msg]
      ensures counts == old(counts) && log == old(log)
    {
      msgQ := msgQ + [msg];
    }

    /** `_update_counts`. */
    method UpdateCounts(msg: string)
      requires Valid()
      modifies this
      ensures Valid()
      ensures counts == Bump(old(counts), msg)
      ensures msgQ == old(msgQ) && log == old(log)
    {
      match CounterFor(msg)
      case None =>
      case Some(c) =>
        counts := counts[c := counts[c] + 1];
    }

    /** `timerEvent`: take messages off the front of the queue until it is empty, counting
        each and appending it with its colour to the log. */
    method TimerEvent()
      requires Valid()
      modifies this
      ensures Valid()
      ensures msgQ == []
      ensures log == old(log) + LogOf(old(msgQ))
      ensures counts == Drain(old(counts), old(msgQ))
    {
      ghost var k := 0;
      while msgQ != []
        invariant Valid()
        invariant 0 <= k <= |old(msgQ)|
        invariant msgQ == old(msgQ)[k..]
        invariant log == old(log) + LogOf(old(msgQ)[..k])
        invariant counts == Drain(old(counts), old(msgQ)[..k])
        decreases |msgQ|
      {
        var msg := msgQ[0];
        msgQ := msgQ[1..];
        UpdateCounts(msg);
        var color := ColorFor(msg);
        log := log + [(msg, color)];
        assert old(msgQ)[..k + 1] == old(msgQ)[..k] + [msg];
        LogOfConcat(old(msgQ)[..k], [msg]);
        DrainConcat(old(counts), old(msgQ)[..k], [msg]);
        k := k + 1;
      }
      assert old(msgQ)[..|old(msgQ)|] == old(msgQ);
    }
  }
}
