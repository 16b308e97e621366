// What a walk finds, from the tree of directories and the answers of the handlers alone.

module DirectoryTree {
  import opened DirectoryWalk

  // ----- The answers of the handlers ------------------------------------------------------------------

  ghost function Answer(handlers: seq<Handler>, i: nat, d: Directory): Flow
    requires i < |handlers|
  {
    handlers[i](d.path, |d.entries| == 0)
  }

  // The first answer other than to continue decides; without one, the directory is entered.
  ghost predicate Decides(handlers: seq<Handler>, d: Directory, verdict: Flow) {
    if verdict == Continue then forall i :: 0 <= i < |handlers| ==> Answer(handlers, i, d) == Continue
    else
      exists i :: 0 <= i < |handlers| && Answer(handlers, i, d) == verdict &&
        forall j :: 0 <= j < i ==> Answer(handlers, j, d) == Continue
  }

  lemma {:induction false} VerdictDecides(handlers: seq<Handler>, d: Directory)
    ensures Decides(handlers, d, Verdict(handlers, d))
  {
    if handlers != [] && Answer(handlers, 0, d) == Continue {
      var rest := handlers[1..];
      VerdictDecides(rest, d);
      assert forall i :: 0 <= i < |rest| ==> Answer(handlers, i + 1, d) == Answer(rest, i, d);
      if Verdict(handlers, d) != Continue {
        var i :| 0 <= i < |rest| && Answer(rest, i, d) == Verdict(rest, d) &&
          forall j :: 0 <= j < i ==> Answer(rest, j, d) == Continue;
        assert Answer(handlers, i + 1, d) == Verdict(handlers, d);
        forall j | 0 <= j < i + 1
          ensures Answer(handlers, j, d) == Continue
        {
          assert j > 0 ==> Answer(rest, j - 1, d) == Continue;
        }
      } else {
        forall i | 0 <= i < |handlers|
          ensures Answer(handlers, i, d) == Continue
        {
          assert i > 0 ==> Answer(rest, i - 1, d) == Continue;
        }
      }
    } else if handlers != [] {
      assert Answer(handlers, 0, d) == Verdict(handlers, d);
    }
  }

  // ----- What a tree holds ------------------------------------------------------------------------------

  // All handlers let the walk enter the directory.
  ghost predicate Admits(handlers: seq<Handler>, d: Directory) {
    forall i :: 0 <= i < |handlers| ==> Answer(handlers, i, d) == Continue
  }

  // The files of the entries, in the order of the listing: those of a directory that is entered come
  // where the directory is listed, and those of any other not at all.
  ghost function FilesIn(handlers: seq<Handler>, path: string, entries: seq<Entry>): seq<FoundFile>
    decreases entries
  {
    if entries == [] then []
    else FilesOfEntry(handlers, path, entries[0]) + FilesIn(handlers, path, entries[1..])
  }

  ghost function FilesOfEntry(handlers: seq<Handler>, path: string, entry: Entry): seq<FoundFile>
    decreases entry
  {
    match entry
    case File(name, modified, size) => [FoundFile(name, path, modified, size)]
    case Folder(d) => if Admits(handlers, d) then FilesIn(handlers, d.path, d.entries) else []
  }

  ghost function FoldersIn(handlers: seq<Handler>, entries: seq<Entry>): nat
    decreases entries
  {
    if entries == [] then 0 else FoldersOfEntry(handlers, entries[0]) + FoldersIn(handlers, entries[1..])
  }

  ghost function FoldersOfEntry(handlers: seq<Handler>, entry: Entry): nat
    decreases entry
  {
    if entry.Folder? && Admits(handlers, entry.directory) then 1 + FoldersIn(handlers, entry.directory.entries) else 0
  }

  ghost predicate NeverAborts(handlers: seq<Handler>) {
    forall i, path, empty :: 0 <= i < |handlers| ==> handlers[i](path, empty) != Abort
  }

  lemma VerdictAdmits(handlers: seq<Handler>, d: Directory)
    requires NeverAborts(handlers)
    ensures Verdict(handlers, d) == if Admits(handlers, d) then Continue else Skip
  {
    VerdictDecides(handlers, d);
    assert forall i :: 0 <= i < |handlers| ==> Answer(handlers, i, d) != Abort;
  }

  // ----- Walks that no handler aborts ------------------------------------------------------------------

  lemma {:induction false} EventsAdd(a: seq<Event>, b: seq<Event>)
    ensures FilesOf(a + b) == FilesOf(a) + FilesOf(b) && FoldersOf(a + b) == FoldersOf(a) + FoldersOf(b)
  {
    if b == [] {
      assert a + b == a;
    } else {
      var rest, last := b[..|b| - 1], b[|b| - 1];
      EventsAdd(a, rest);
      EventAppended(a + rest, last);
      EventAppended(rest, last);
      assert a + b == (a + rest) + [last] && b == rest + [last];
    }
  }

  lemma OneEvent(event: Event)
    ensures FilesOf([event]) == if event.Found? then [event.file] else []
    ensures FoldersOf([event]) == if event.Offered? && event.verdict.Continue? then 1 else 0
  {
    EventAppended([], event);
    assert [] + [event] == [event];
  }

  // The trace of these entries finds just their files, and enters just their directories.
  ghost predicate Finds(w: Watch, t: Trace, files: seq<FoundFile>, folders: nat) {
    !t.aborted && FilesOf(t.events) == (if w.files then files else []) && FoldersOf(t.events) == folders
  }

  lemma FindsBoth(w: Watch, a: Trace, b: Trace, files: seq<FoundFile>, folders: nat, files': seq<FoundFile>,
                  folders': nat)
    requires Finds(w, a, files, folders) && Finds(w, b, files', folders')
    ensures Finds(w, Then(a, b), files + files', folders + folders')
  {
    EventsAdd(a.events, b.events);
  }

  lemma {:induction false} EntriesAreFound(w: Watch, path: string, entries: seq<Entry>)
    requires NeverAborts(w.handlers)
    ensures Finds(w, TraverseEntries(w, path, entries), FilesIn(w.handlers, path, entries),
                  FoldersIn(w.handlers, entries))
    decreases entries, 0
  {
    if entries != [] {
      EntryIsFound(w, path, entries[0]);
      EntriesAreFound(w, path, entries[1..]);
      FindsBoth(w, TraverseEntry(w, path, entries[0]), TraverseEntries(w, path, entries[1..]),
                FilesOfEntry(w.handlers, path, entries[0]), FoldersOfEntry(w.handlers, entries[0]),
                FilesIn(w.handlers, path, entries[1..]), FoldersIn(w.handlers, entries[1..]));
    }
  }

  lemma {:induction false} EntryIsFound(w: Watch, path: string, entry: Entry)
    requires NeverAborts(w.handlers)
    ensures Finds(w, TraverseEntry(w, path, entry), FilesOfEntry(w.handlers, path, entry),
                  FoldersOfEntry(w.handlers, entry))
    decreases entry, 0
  {
    match entry
    case File(name, modified, size) =>
      OneEvent(Found(FoundFile(name, path, modified, size)));
    case Folder(d) =>
      DirectoryIsFound(w, d);
  }

  // A directory that is entered counts, and so does all it holds; any other counts for nothing.
  lemma {:induction false} DirectoryIsFound(w: Watch, d: Directory)
    requires NeverAborts(w.handlers)
    ensures if Admits(w.handlers, d) then
              Finds(w, Traverse(w, d), FilesIn(w.handlers, d.path, d.entries), 1 + FoldersIn(w.handlers, d.entries))
            else Finds(w, Traverse(w, d), [], 0)
    decreases d, 1
  {
    var verdict := Verdict(w.handlers, d);
    VerdictAdmits(w.handlers, d);
    OneEvent(Offered(d.path, verdict));
    if Admits(w.handlers, d) {
      EntriesAreFound(w, d.path, d.entries);
      FindsBoth(w, Trace([Offered(d.path, verdict)], false), TraverseEntries(w, d.path, d.entries), [], 1,
                FilesIn(w.handlers, d.path, d.entries), FoldersIn(w.handlers, d.entries));
      assert [] + FilesIn(w.handlers, d.path, d.entries) == FilesIn(w.handlers, d.path, d.entries);
    }
  }

  // ----- Walks that a handler aborts -------------------------------------------------------------------

  ghost function SkipInstead(handler: Handler): Handler {
    (path: string, empty: bool) => if handler(path, empty) == Abort then Skip else handler(path, empty)
  }

  // The same handlers, but for skipping what they would abort at.
  ghost function Patient(handlers: seq<Handler>): seq<Handler> {
    seq(|handlers|, i requires 0 <= i < |handlers| => SkipInstead(handlers[i]))
  }

  lemma PatientNeverAborts(handlers: seq<Handler>)
    ensures NeverAborts(Patient(handlers))
  {
  }

  lemma {:induction false} PatientVerdict(handlers: seq<Handler>, d: Directory)
    ensures Verdict(Patient(handlers), d) == if Verdict(handlers, d) == Abort then Skip else Verdict(handlers, d)
  {
    if handlers != [] {
      PatientVerdict(handlers[1..], d);
      assert Patient(handlers)[1..] == Patient(handlers[1..]);
    }
  }

  ghost predicate IsPrefix(a: seq<Event>, b: seq<Event>) {
    |a| <= |b| && b[..|a|] == a
  }

  // An aborted trace is the whole one cut short where a handler aborts; any other is whole.
  ghost predicate CutShort(t: Trace, whole: Trace) {
    && !whole.aborted
    && if !t.aborted then t.events == whole.events
       else
         && t.events != [] && IsPrefix(t.events[..|t.events| - 1], whole.events)
         && t.events[|t.events| - 1].Offered? && t.events[|t.events| - 1].verdict.Abort?
  }

  lemma BothCutShort(a: Trace, b: Trace, a': Trace, b': Trace)
    requires CutShort(a, a') && CutShort(b, b')
    ensures CutShort(Then(a, b), Then(a', b'))
  {
    var t, whole := Then(a, b), Then(a', b');
    if a.aborted {
      var before := a.events[..|a.events| - 1];
      assert whole.events[..|before|] == a'.events[..|before|];
    } else if b.aborted {
      var before := b.events[..|b.events| - 1];
      assert t.events[..|t.events| - 1] == a.events + before;
      assert whole.events[..|a.events| + |before|] == a'.events + b'.events[..|before|];
    }
  }

  // A handler that aborts only cuts the walk short: what comes before is what the handlers would have
  // been told had they skipped instead.
  lemma {:induction false} AbortCutsShort(w: Watch, d: Directory)
    ensures CutShort(Traverse(w, d), Traverse(Watch(Patient(w.handlers), w.files), d))
    decreases d, 1
  {
    var patient := Watch(Patient(w.handlers), w.files);
    PatientVerdict(w.handlers, d);
    var verdict := Verdict(w.handlers, d);
    if verdict.Continue? {
      AbortCutsEntriesShort(w, d.path, d.entries);
      var offered := Trace([Offered(d.path, verdict)], false);
      BothCutShort(offered, TraverseEntries(w, d.path, d.entries), offered,
                   TraverseEntries(patient, d.path, d.entries));
    }
  }

  lemma {:induction false} AbortCutsEntriesShort(w: Watch, path: string, entries: seq<Entry>)
    ensures CutShort(TraverseEntries(w, path, entries),
                     TraverseEntries(Watch(Patient(w.handlers), w.files), path, entries))
    decreases entries, 0
  {
    var patient := Watch(Patient(w.handlers), w.files);
    if entries != [] {
      AbortCutsEntryShort(w, path, entries[0]);
      AbortCutsEntriesShort(w, path, entries[1..]);
      BothCutShort(TraverseEntry(w, path, entries[0]), TraverseEntries(w, path, entries[1..]),
                   TraverseEntry(patient, path, entries[0]), TraverseEntries(patient, path, entries[1..]));
    }
  }

  lemma {:induction false} AbortCutsEntryShort(w: Watch, path: string, entry: Entry)
    ensures CutShort(TraverseEntry(w, path, entry), TraverseEntry(Watch(Patient(w.handlers), w.files), path, entry))
    decreases entry, 0
  {
    if entry.Folder? {
      AbortCutsShort(w, entry.directory);
    }
  }

  // ----- The walker -------------------------------------------------------------------------------------

  // A walker that nobody aborts hands over exactly the files of the directories it may enter, in the
  // order of the listings, in jobs of a hundred but for the last one, and counts them.
  method WalkTree(root: Directory, handlers: seq<Handler>, handleFiles: bool)
    returns (jobs: seq<seq<FoundFile>>, folders: nat, files: nat)
    requires NeverAborts(handlers)
    ensures Concat(jobs) ==
            if Admits(handlers, root) && handleFiles then FilesIn(handlers, root.path, root.entries) else []
    ensures folders == if Admits(handlers, root) then 1 + FoldersIn(handlers, root.entries) else 0
    ensures files == |Concat(jobs)|
    ensures forall j :: 0 <= j < |jobs| - 1 ==> |jobs[j]| == 100
    ensures jobs != [] ==> 0 < |jobs[|jobs| - 1]| <= 100
  {
    var walker := new WalkerThread(handlers, handleFiles);
    DirectoryIsFound(Watch(handlers, handleFiles), root);
    walker.Walk(root);
    jobs, folders, files := walker.dispatched, walker.folderCount, walker.fileCount;
  }
}
