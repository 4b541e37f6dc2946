/**
 * The directory handler of the file watcher: which file-system events it
 * reports. It looks only at files (never directories) whose path ends in
 * `.exe` in any letter case. A creation is reported as created, a deletion
 * as deleted, and a move (a rename) as the deletion of its old path followed
 * by the creation of its new path, each half only when that path is a
 * program file. The handler holds no state; each callback is a function from
 * the event (and the clock reading `now`) to the texts it emits.
 */
module FileEvents {
  import opened Text
  import opened Events

  /** A file-system event as the watching library delivers it. `destPath` is meaningful
      for moves only. */
  datatype FsEvent = FsEvent(isDirectory: bool, srcPath: string, destPath: string)

  /** `_is_target`: the path names a program file. */
  predicate IsTarget(path: string) {
    EndsWith(Lower(path), ".exe")
  }

  /** `on_created`. */
  function OnCreated(e: FsEvent, now: DateTime): seq<string> {
    if !e.isDirectory && IsTarget(e.srcPath) then [Render(FileCreated(e.srcPath), now)] else []
  }

  /** `on_deleted`. */
  function OnDeleted(e: FsEvent, now: DateTime): seq<string> {
    if !e.isDirectory && IsTarget(e.srcPath) then [Render(FileDeleted(e.srcPath), now)] else []
  }

  /** `on_moved`. */
  function OnMoved(e: FsEvent, now: DateTime): seq<string> {
    if e.isDirectory then []
    else
      (if IsTarget(e.srcPath) then [Render(FileDeleted(e.srcPath), now)] else [])
      + (if IsTarget(e.destPath) then [Render(FileCreated(e.destPath), now)] else [])
  }

  predicate IsE(c: char) { c == 'e' || c == 'E' }
  predicate IsX(c: char) { c == 'x' || c == 'X' }

  lemma LowerCharIs(c: char, l: char)
    requires 'a' <= l <= 'z'
    ensures LowerChar(c) == l <==> c == l || c as int == l as int - 32
  {
  }

  /** The target test, character by character: a dot, then `e`, `x`, `e` in either case,
      at the very end of the path. */
  lemma IsTargetIff(path: string)
    ensures IsTarget(path) <==>
              && |path| >= 4
              && path[|path| - 4] == '.'
              && IsE(path[|path| - 3]) && IsX(path[|path| - 2]) && IsE(path[|path| - 1])
  {
    var low, n := Lower(path), |path|;
    if n >= 4 {
      assert low[n - 4..] == [low[n - 4], low[n - 3], low[n - 2], low[n - 1]];
      LowerCharIs(path[n - 3], 'e');
      LowerCharIs(path[n - 2], 'x');
      LowerCharIs(path[n - 1], 'e');
    }
  }

  /** A program file with an upper-case extension is a target. */
  lemma UpperCaseExtensionIsTarget()
    ensures IsTarget("C:\\Users\\me\\Downloads\\app.EXE")
  {
    IsTargetIff("C:\\Users\\me\\Downloads\\app.EXE");
  }

  /** A text file is not. */
  lemma TextFileIsNotTarget()
    ensures !IsTarget("C:\\Users\\me\\notes.txt")
  {
    IsTargetIff("C:\\Users\\me\\notes.txt");
  }

  /** A name that merely contains `.exe` before another extension is not a target either. */
  lemma ExeInsideNameIsNotTarget(stem: string)
    ensures !IsTarget(stem + ".exe.txt")
  {
    var path := stem + ".exe.txt";
    IsTargetIff(path);
    assert path[|path| - 1] == 't';
  }

  /** A creation is reported exactly when it is a program file, and then once. */
  lemma CreatedReported(e: FsEvent, now: DateTime)
    ensures |OnCreated(e, now)| <= 1
    ensures OnCreated(e, now) != [] <==> !e.isDirectory && IsTarget(e.srcPath)
    ensures OnCreated(e, now) != [] ==> OnCreated(e, now)[0] == Render(FileCreated(e.srcPath), now)
  {
  }

  /** A deletion is reported exactly when it is a program file, and then once. */
  lemma DeletedReported(e: FsEvent, now: DateTime)
    ensures |OnDeleted(e, now)| <= 1
    ensures OnDeleted(e, now) != [] <==> !e.isDirectory && IsTarget(e.srcPath)
    ensures OnDeleted(e, now) != [] ==> OnDeleted(e, now)[0] == Render(FileDeleted(e.srcPath), now)
  {
  }

  /** A move reports what deleting the old path would, followed by what creating the new
      path would. */
  lemma MoveIsDeleteThenCreate(e: FsEvent, now: DateTime)
    ensures OnMoved(e, now) == OnDeleted(e, now) + OnCreated(e.(srcPath := e.destPath), now)
  {
  }

  /** A move emits at most two events, and none for a directory. */
  lemma MoveBounded(e: FsEvent, now: DateTime)
    ensures |OnMoved(e, now)| <= 2
    ensures e.isDirectory ==> OnMoved(e, now) == []
    ensures |OnMoved(e, now)| == 2 <==> !e.isDirectory && IsTarget(e.srcPath) && IsTarget(e.destPath)
  {
    MoveIsDeleteThenCreate(e, now);
    DeletedReported(e, now);
    CreatedReported(e.(srcPath := e.destPath), now);
  }

  /** Renaming a program to a text file is reported as the program's deletion only. */
  lemma RenameAwayFromExe(now: DateTime)
    ensures OnMoved(FsEvent(false, "old.exe", "new.txt"), now) == [Render(FileDeleted("old.exe"), now)]
  {
    IsTargetIff("old.exe");
    IsTargetIff("new.txt");
    assert !IsE("new.txt"[4]);
  }

  /** Renaming one program to another is reported as a deletion, then a creation. */
  lemma RenameBetweenExes(now: DateTime)
    ensures OnMoved(FsEvent(false, "old.exe", "new.exe"), now) ==
              [Render(FileDeleted("old.exe"), now), Render(FileCreated("new.exe"), now)]
  {
    IsTargetIff("old.exe");
    IsTargetIff("new.exe");
    assert IsTarget("old.exe") && IsTarget("new.exe");
  }
}
