// The directory walker: an explicit stack of directories with a cursor in each, and batches
// of files handed over as jobs. It is proved to do what the recursive traversal below does.

module DirectoryWalk {

  const MAX_FILES_PER_JOB := 100

  datatype Flow = Continue | Abort | Skip

  datatype Entry = File(name: string, modified: int, size: nat) | Folder(directory: Directory)

  datatype Directory = Directory(path: string, entries: seq<Entry>)

  datatype FoundFile = FoundFile(name: string, parent: string, modified: int, size: nat)

  // A directory was offered to the handlers with this outcome, or a file was found.
  datatype Event = Offered(path: string, verdict: Flow) | Found(file: FoundFile)

  type Handler = (string, bool) -> Flow

  // ----- The recursive traversal -------------------------------------------------------------

  // Handlers are asked in turn until one does not say to continue.
  function Verdict(handlers: seq<Handler>, d: Directory): Flow {
    if handlers == [] then Continue
    else
      var flow := handlers[0](d.path, d.entries == []);
      if flow.Continue? then Verdict(handlers[1..], d) else flow
  }

  datatype Trace = Trace(events: seq<Event>, aborted: bool)

  ghost function Then(a: Trace, b: Trace): Trace {
    if a.aborted then a else Trace(a.events + b.events, b.aborted)
  }

  // What the handlers are told; files only when some handler wants them.
  datatype Watch = Watch(handlers: seq<Handler>, files: bool)

  ghost function Traverse(w: Watch, d: Directory): Trace
    decreases d, 1
  {
    var verdict := Verdict(w.handlers, d);
    var offered := Trace([Offered(d.path, verdict)], verdict.Abort?);
    if verdict.Continue? then Then(offered, TraverseEntries(w, d.path, d.entries)) else offered
  }

  ghost function TraverseEntries(w: Watch, path: string, entries: seq<Entry>): Trace
    decreases entries, 0
  {
    if entries == [] then Trace([], false)
    else Then(TraverseEntry(w, path, entries[0]), TraverseEntries(w, path, entries[1..]))
  }

  ghost function TraverseEntry(w: Watch, path: string, entry: Entry): Trace
    decreases entry, 0
  {
    match entry
    case File(name, modified, size) =>
      Trace(if w.files then [Found(FoundFile(name, path, modified, size))] else [], false)
    case Folder(d) => Traverse(w, d)
  }

  lemma ThenIsAssociative(a: Trace, b: Trace, c: Trace)
    ensures Then(Then(a, b), c) == Then(a, Then(b, c))
  {
    assert (a.events + b.events) + c.events == a.events + (b.events + c.events);
  }

  ghost function FilesOf(events: seq<Event>): seq<FoundFile> {
    if events == [] then []
    else
      var last := events[|events| - 1];
      FilesOf(events[..|events| - 1]) + if last.Found? then [last.file] else []
  }

  // Directories whose content is traversed.
  ghost function FoldersOf(events: seq<Event>): nat {
    if events == [] then 0
    else
      var last := events[|events| - 1];
      FoldersOf(events[..|events| - 1]) + if last.Offered? && last.verdict.Continue? then 1 else 0
  }

  lemma {:induction false} EventAppended(events: seq<Event>, event: Event)
    ensures FilesOf(events + [event]) == FilesOf(events) + if event.Found? then [event.file] else []
    ensures FoldersOf(events + [event])
         == FoldersOf(events) + if event.Offered? && event.verdict.Continue? then 1 else 0
  {
    assert (events + [event])[..|events|] == events;
  }

  ghost function Concat(jobs: seq<seq<FoundFile>>): seq<FoundFile> {
    if jobs == [] then [] else Concat(jobs[..|jobs| - 1]) + jobs[|jobs| - 1]
  }

  lemma {:induction false} ConcatAppended(jobs: seq<seq<FoundFile>>, job: seq<FoundFile>)
    ensures Concat(jobs + [job]) == Concat(jobs) + job
  {
    assert (jobs + [job])[..|jobs|] == jobs;
  }

  // ----- What is left to do with a stack ------------------------------------------------------

  datatype Context = Context(directory: Directory, cursor: nat)

  ghost predicate InRange(contexts: seq<Context>) {
    forall i :: 0 <= i < |contexts| ==> contexts[i].cursor <= |contexts[i].directory.entries|
  }

  // The top of the stack is its last context.
  ghost function Remaining(w: Watch, contexts: seq<Context>): Trace
    requires InRange(contexts)
  {
    if contexts == [] then Trace([], false)
    else
      var top := contexts[|contexts| - 1];
      Then(TraverseEntries(w, top.directory.path, top.directory.entries[top.cursor..]),
           Remaining(w, contexts[..|contexts| - 1]))
  }

  ghost function EntrySize(entry: Entry): nat
    decreases entry, 0
  {
    match entry
    case File(_, _, _) => 1
    case Folder(d) => 2 + EntriesSize(d.entries)
  }

  ghost function EntriesSize(entries: seq<Entry>): nat
    decreases entries, 0
  {
    if entries == [] then 0 else EntrySize(entries[0]) + EntriesSize(entries[1..])
  }

  ghost function StackSize(contexts: seq<Context>): nat
    requires InRange(contexts)
  {
    if contexts == [] then 0
    else
      var top := contexts[|contexts| - 1];
      1 + EntriesSize(top.directory.entries[top.cursor..]) + StackSize(contexts[..|contexts| - 1])
  }

  lemma NothingThen(b: Trace)
    ensures Then(Trace([], false), b) == b
  {
    assert [] + b.events == b.events;
  }

  ghost function Advanced(contexts: seq<Context>): seq<Context>
    requires contexts != []
  {
    AdvancedAt(contexts, |contexts| - 1)
  }

  ghost function AdvancedAt(contexts: seq<Context>, index: nat): seq<Context>
    requires index < |contexts|
  {
    contexts[index := Context(contexts[index].directory, contexts[index].cursor + 1)]
  }

  lemma AdvancedUnder(contexts: seq<Context>, entered: Context)
    requires contexts != []
    ensures AdvancedAt(contexts + [entered], |contexts| - 1) == Advanced(contexts) + [entered]
  {
  }

  ghost predicate MoreEntries(contexts: seq<Context>) {
    && contexts != []
    && contexts[|contexts| - 1].cursor < |contexts[|contexts| - 1].directory.entries|
  }

  // Taking one entry off the top directory.
  lemma RemainingAdvances(w: Watch, contexts: seq<Context>)
    requires InRange(contexts) && MoreEntries(contexts)
    ensures InRange(Advanced(contexts))
    ensures var top := contexts[|contexts| - 1];
            var entry := top.directory.entries[top.cursor];
            Remaining(w, contexts)
            == Then(TraverseEntry(w, top.directory.path, entry), Remaining(w, Advanced(contexts)))
  {
    var top := contexts[|contexts| - 1];
    var d, i := top.directory, top.cursor;
    var below := contexts[..|contexts| - 1];
    assert Advanced(contexts)[..|contexts| - 1] == below;
    assert d.entries[i..][1..] == d.entries[i + 1..];
    ThenIsAssociative(TraverseEntry(w, d.path, d.entries[i]), TraverseEntries(w, d.path, d.entries[i + 1..]),
                      Remaining(w, below));
  }

  lemma SizeOfTop(below: seq<Context>, top: Context)
    requires InRange(below) && InRange(below + [top])
    ensures top.cursor <= |top.directory.entries|
    ensures StackSize(below + [top]) == 1 + EntriesSize(top.directory.entries[top.cursor..]) + StackSize(below)
  {
    assert (below + [top])[|below|] == top && (below + [top])[..|below|] == below;
  }

  lemma SizeOfEntries(entries: seq<Entry>, i: nat)
    requires i < |entries|
    ensures EntriesSize(entries[i..]) == EntrySize(entries[i]) + EntriesSize(entries[i + 1..])
  {
    assert entries[i..][1..] == entries[i + 1..];
  }

  lemma TopAdvances(contexts: seq<Context>)
    requires InRange(contexts) && MoreEntries(contexts)
    ensures InRange(Advanced(contexts)) && InRange(contexts[..|contexts| - 1])
    ensures var below, top := contexts[..|contexts| - 1], contexts[|contexts| - 1];
            contexts == below + [top] && Advanced(contexts) == below + [Context(top.directory, top.cursor + 1)]
  {
  }

  lemma SizeAdvances(contexts: seq<Context>)
    requires InRange(contexts) && MoreEntries(contexts)
    ensures InRange(Advanced(contexts))
    ensures var top := contexts[|contexts| - 1];
            StackSize(contexts) == EntrySize(top.directory.entries[top.cursor]) + StackSize(Advanced(contexts))
  {
    var below, top := contexts[..|contexts| - 1], contexts[|contexts| - 1];
    TopAdvances(contexts);
    SizeOfTop(below, top);
    SizeOfTop(below, Context(top.directory, top.cursor + 1));
    SizeOfEntries(top.directory.entries, top.cursor);
  }

  lemma SizeEntered(contexts: seq<Context>, d: Directory)
    requires InRange(contexts)
    ensures InRange(contexts + [Context(d, 0)])
    ensures StackSize(contexts + [Context(d, 0)]) == 1 + EntriesSize(d.entries) + StackSize(contexts)
  {
    SizeOfTop(contexts, Context(d, 0));
    assert d.entries[0..] == d.entries;
  }

  // Entering a directory.
  lemma RemainingEntered(w: Watch, contexts: seq<Context>, d: Directory)
    requires InRange(contexts)
    ensures InRange(contexts + [Context(d, 0)])
    ensures Remaining(w, contexts + [Context(d, 0)])
         == Then(TraverseEntries(w, d.path, d.entries), Remaining(w, contexts))
  {
    assert (contexts + [Context(d, 0)])[..|contexts|] == contexts;
    assert d.entries[0..] == d.entries;
  }

  lemma CourseAfterEvent(before: seq<Event>, event: Event, rest: Trace)
    ensures Then(Trace(before, false), Then(Trace([event], false), rest))
         == Then(Trace(before + [event], false), rest)
  {
    ThenIsAssociative(Trace(before, false), Trace([event], false), rest);
  }

  // Offering the next directory: what is left of the traversal after each verdict.
  lemma CourseAfterOffer(w: Watch, events: seq<Event>, contexts: seq<Context>, d: Directory)
    requires InRange(contexts) && MoreEntries(contexts)
    requires contexts[|contexts| - 1].directory.entries[contexts[|contexts| - 1].cursor] == Folder(d)
    ensures InRange(Advanced(contexts)) && InRange(Advanced(contexts) + [Context(d, 0)])
    ensures var after := events + [Offered(d.path, Verdict(w.handlers, d))];
            Then(Trace(events, false), Remaining(w, contexts))
            == match Verdict(w.handlers, d)
               case Continue => Then(Trace(after, false), Remaining(w, Advanced(contexts) + [Context(d, 0)]))
               case Skip => Then(Trace(after, false), Remaining(w, Advanced(contexts)))
               case Abort => Trace(after, true)
  {
    RemainingAdvances(w, contexts);
    RemainingEntered(w, Advanced(contexts), d);
    var rest := Remaining(w, Advanced(contexts));
    var inside := TraverseEntries(w, d.path, d.entries);
    var offered := Offered(d.path, Verdict(w.handlers, d));
    match Verdict(w.handlers, d) {
      case Continue =>
        ThenIsAssociative(Trace([offered], false), inside, rest);
        CourseAfterEvent(events, offered, Then(inside, rest));
      case Skip =>
        CourseAfterEvent(events, offered, rest);
      case Abort =>
    }
  }

  lemma StackShrinks(contexts: seq<Context>, d: Directory)
    requires InRange(contexts) && MoreEntries(contexts)
    requires contexts[|contexts| - 1].directory.entries[contexts[|contexts| - 1].cursor] == Folder(d)
    ensures InRange(Advanced(contexts)) && InRange(Advanced(contexts) + [Context(d, 0)])
    ensures StackSize(Advanced(contexts)) < StackSize(contexts)
    ensures StackSize(Advanced(contexts) + [Context(d, 0)]) < StackSize(contexts)
  {
    SizeAdvances(contexts);
    SizeEntered(Advanced(contexts), d);
  }

  // The events so far and what the stack still holds make up the whole traversal.
  ghost predicate OnTheWay(w: Watch, goal: Trace, stopped: bool, events: seq<Event>, contexts: seq<Context>)
    requires InRange(contexts)
  {
    if stopped then goal == Trace(events, true) else goal == Then(Trace(events, false), Remaining(w, contexts))
  }

  lemma FolderTaken(w: Watch, goal: Trace, events: seq<Event>, contexts: seq<Context>, d: Directory)
    requires InRange(contexts) && MoreEntries(contexts) && OnTheWay(w, goal, false, events, contexts)
    requires contexts[|contexts| - 1].directory.entries[contexts[|contexts| - 1].cursor] == Folder(d)
    ensures var verdict := Verdict(w.handlers, d);
            var after := if verdict.Continue? then Advanced(contexts) + [Context(d, 0)] else Advanced(contexts);
            && InRange(after) && StackSize(after) < StackSize(contexts)
            && OnTheWay(w, goal, verdict.Abort?, events + [Offered(d.path, verdict)], after)
  {
    CourseAfterOffer(w, events, contexts, d);
    StackShrinks(contexts, d);
  }

  // Leaving a directory whose entries are all done.
  lemma RemainingLeft(w: Watch, contexts: seq<Context>)
    requires InRange(contexts) && contexts != []
    ensures InRange(contexts[..|contexts| - 1])
    ensures StackSize(contexts[..|contexts| - 1]) < StackSize(contexts)
    ensures !MoreEntries(contexts) ==> Remaining(w, contexts[..|contexts| - 1]) == Remaining(w, contexts)
  {
    NothingThen(Remaining(w, contexts[..|contexts| - 1]));
  }

  // The statistics count the events so far.
  ghost predicate Counted(events: seq<Event>, folders: nat, files: nat) {
    folders == FoldersOf(events) && files == |FilesOf(events)|
  }

  // Full jobs are dispatched, and the files since are in the job being prepared.
  ghost predicate Batched(events: seq<Event>, dispatched: seq<seq<FoundFile>>, job: seq<FoundFile>) {
    && FilesOf(events) == Concat(dispatched) + job
    && |job| < MAX_FILES_PER_JOB
    && forall j :: 0 <= j < |dispatched| ==> |dispatched[j]| == MAX_FILES_PER_JOB
  }

  lemma FileBatched(events: seq<Event>, dispatched: seq<seq<FoundFile>>, job: seq<FoundFile>, file: FoundFile)
    requires Batched(events, dispatched, job)
    ensures var after, longer := events + [Found(file)], job + [file];
            if |longer| == MAX_FILES_PER_JOB then Batched(after, dispatched + [longer], [])
            else Batched(after, dispatched, longer)
  {
    var longer := job + [file];
    EventAppended(events, Found(file));
    ConcatAppended(dispatched, longer);
    assert Concat(dispatched) + longer == FilesOf(events) + [file];
    assert Concat(dispatched) + longer + [] == Concat(dispatched) + longer;
  }

  // Every job but the last has the full number of files, and no job is empty.
  ghost predicate AllDispatched(events: seq<Event>, dispatched: seq<seq<FoundFile>>) {
    && Concat(dispatched) == FilesOf(events)
    && (forall j :: 0 <= j < |dispatched| ==> 0 < |dispatched[j]| <= MAX_FILES_PER_JOB)
    && (forall j :: 0 <= j < |dispatched| - 1 ==> |dispatched[j]| == MAX_FILES_PER_JOB)
  }

  lemma RestDispatched(events: seq<Event>, dispatched: seq<seq<FoundFile>>, job: seq<FoundFile>)
    requires Batched(events, dispatched, job)
    ensures AllDispatched(events, if job == [] then dispatched else dispatched + [job])
  {
    ConcatAppended(dispatched, job);
    assert job == [] ==> Concat(dispatched) + job == Concat(dispatched);
  }

  // ----- The walker ----------------------------------------------------------------------------

  class WalkerThread {
    const handlers: seq<Handler>
    const handleFiles: bool
    var stack: seq<string>
    var contexts: seq<Context>
    var fileJob: seq<FoundFile>
    var dispatched: seq<seq<FoundFile>>
    var fileCount: nat
    var folderCount: nat
    var aborted: bool
    var shouldStop: bool
    ghost var events: seq<Event>

    ghost predicate Valid()
      reads this
    {
      && InRange(contexts)
      && |stack| == |contexts|
      && Counted(events, folderCount, fileCount)
      && Batched(events, dispatched, fileJob)
    }

    constructor (handlers: seq<Handler>, handleFiles: bool)
      ensures Valid() && events == [] && contexts == [] && !shouldStop && aborted
      ensures this.handlers == handlers && this.handleFiles == handleFiles
    {
      this.handlers, this.handleFiles := handlers, handleFiles;
      stack, contexts, fileJob, dispatched := [], [], [], [];
      fileCount, folderCount, aborted, shouldStop := 0, 0, true, false;
      events := [];
    }

    ghost function Watching(): Watch {
      Watch(handlers, handleFiles)
    }

    method OnDirectoryEnter(d: Directory) returns (entered: bool)
      requires Valid() && !shouldStop
      modifies this`shouldStop, this`folderCount, this`stack, this`contexts, this`events
      ensures Valid()
      ensures var verdict := Verdict(handlers, d);
              && entered == verdict.Continue? && shouldStop == verdict.Abort?
              && events == old(events) + [Offered(d.path, verdict)]
              && contexts == if entered then old(contexts) + [Context(d, 0)] else old(contexts)
    {
      var i := 0;
      var flow := Continue;
      while i < |handlers| && flow.Continue?
        invariant i <= |handlers|
        invariant flow.Continue? ==> Verdict(handlers, d) == Verdict(handlers[i..], d)
        invariant !flow.Continue? ==> Verdict(handlers, d) == flow
      {
        flow := handlers[i](d.path, d.entries == []);
        assert handlers[i..][1..] == handlers[i + 1..];
        i := i + 1;
      }
      events := events + [Offered(d.path, flow)];
      EventAppended(old(events), Offered(d.path, flow));
      if !flow.Continue? {
        if flow.Abort? {
          shouldStop := true;
        }
        return false;
      }
      folderCount := folderCount + 1;
      stack := stack + [d.path];
      contexts := contexts + [Context(d, 0)];
      return true;
    }

    method OnDirectoryLeave()
      requires Valid() && contexts != []
      modifies this`stack, this`contexts
      ensures Valid() && contexts == old(contexts[..|contexts| - 1])
    {
      stack := stack[..|stack| - 1];
      contexts := contexts[..|contexts| - 1];
    }

    method DispatchJob(job: seq<FoundFile>)
      modifies this`dispatched
      ensures dispatched == old(dispatched) + [job]
    {
      dispatched := dispatched + [job];
    }

    method TriggerFileEvent(file: FoundFile)
      requires Valid()
      modifies this`fileCount, this`fileJob, this`dispatched, this`events
      ensures Valid() && events == old(events) + [Found(file)]
    {
      FileBatched(events, dispatched, fileJob, file);
      EventAppended(events, Found(file));
      fileCount := fileCount + 1;
      fileJob := fileJob + [file];
      events := events + [Found(file)];
      if |fileJob| == MAX_FILES_PER_JOB {
        DispatchJob(fileJob);
        fileJob := [];
      }
    }

    ghost predicate OnCourse(goal: Trace)
      requires InRange(contexts)
      reads this
    {
      OnTheWay(Watching(), goal, shouldStop, events, contexts)
    }

    method Advance(index: nat)
      requires Valid() && index < |contexts| && contexts[index].cursor < |contexts[index].directory.entries|
      modifies this`contexts
      ensures Valid()
      ensures contexts == AdvancedAt(old(contexts), index)
    {
      contexts := contexts[index := Context(contexts[index].directory, contexts[index].cursor + 1)];
    }

    // The top entry is a file.
    method TakeFile(ghost goal: Trace)
      requires Valid() && !shouldStop && OnCourse(goal) && MoreEntries(contexts)
      requires contexts[|contexts| - 1].directory.entries[contexts[|contexts| - 1].cursor].File?
      modifies this`fileCount, this`fileJob, this`dispatched, this`events, this`contexts
      ensures Valid() && OnCourse(goal) && contexts == old(Advanced(contexts))
      ensures StackSize(contexts) < old(StackSize(contexts))
    {
      var top := contexts[|contexts| - 1];
      var entry := top.directory.entries[top.cursor];
      RemainingAdvances(Watching(), contexts);
      SizeAdvances(contexts);
      ghost var rest := Remaining(Watching(), Advanced(contexts));
      if handleFiles {
        var file := FoundFile(entry.name, top.directory.path, entry.modified, entry.size);
        CourseAfterEvent(events, Found(file), rest);
        TriggerFileEvent(file);
      } else {
        NothingThen(rest);
      }
      Advance(|contexts| - 1);
    }

    // The top entry is a directory.
    method TakeFolder(ghost goal: Trace) returns (entered: bool)
      requires Valid() && !shouldStop && OnCourse(goal) && MoreEntries(contexts)
      requires contexts[|contexts| - 1].directory.entries[contexts[|contexts| - 1].cursor].Folder?
      modifies this`shouldStop, this`folderCount, this`stack, this`contexts, this`events
      ensures Valid() && OnCourse(goal) && contexts != []
      ensures StackSize(contexts) < old(StackSize(contexts))
      ensures entered ==> !shouldStop
    {
      var index := |contexts| - 1;
      var top := contexts[index];
      var d := top.directory.entries[top.cursor].directory;
      FolderTaken(Watching(), goal, events, contexts, d);
      AdvancedUnder(contexts, Context(d, 0));
      entered := OnDirectoryEnter(d);
      Advance(index);
    }

    // Goes through the entries of the top directory, until one of them is entered.
    method Scan(ghost goal: Trace) returns (reloop: bool)
      requires Valid() && !shouldStop && OnCourse(goal) && contexts != []
      modifies this`shouldStop, this`fileCount, this`folderCount, this`stack, this`contexts
      modifies this`fileJob, this`dispatched, this`events
      ensures Valid() && OnCourse(goal) && contexts != []
      ensures StackSize(contexts) <= old(StackSize(contexts))
      ensures reloop ==> !shouldStop && StackSize(contexts) < old(StackSize(contexts))
      ensures !reloop && !shouldStop ==> !MoreEntries(contexts)
    {
      reloop := false;
      while !reloop && !shouldStop && contexts[|contexts| - 1].cursor < |contexts[|contexts| - 1].directory.entries|
        invariant Valid() && OnCourse(goal) && contexts != []
        invariant StackSize(contexts) <= old(StackSize(contexts))
        invariant reloop ==> !shouldStop && StackSize(contexts) < old(StackSize(contexts))
        decreases StackSize(contexts)
      {
        var top := contexts[|contexts| - 1];
        match top.directory.entries[top.cursor] {
          case File(_, _, _) => TakeFile(goal);
          case Folder(_) => reloop := TakeFolder(goal);
        }
      }
    }

    // Leaves the top directory, and those below it that have no entry left.
    method Leave(ghost goal: Trace)
      requires Valid() && OnCourse(goal) && contexts != []
      requires !shouldStop ==> !MoreEntries(contexts)
      modifies this`stack, this`contexts
      ensures Valid() && OnCourse(goal)
      ensures StackSize(contexts) < old(StackSize(contexts))
    {
      RemainingLeft(Watching(), contexts);
      OnDirectoryLeave();
      while contexts != [] && !(contexts[|contexts| - 1].cursor < |contexts[|contexts| - 1].directory.entries|)
        invariant Valid() && OnCourse(goal)
        invariant StackSize(contexts) < old(StackSize(contexts))
        decreases StackSize(contexts)
      {
        RemainingLeft(Watching(), contexts);
        OnDirectoryLeave();
      }
    }

    // The loop over the stack, from the first directory on.
    method WalkStack(ghost goal: Trace)
      requires Valid() && OnCourse(goal) && !shouldStop && contexts != []
      modifies this`shouldStop, this`fileCount, this`folderCount, this`stack, this`contexts
      modifies this`fileJob, this`dispatched, this`events
      ensures Valid() && Trace(events, shouldStop) == goal
    {
      var more := true;
      while more
        invariant Valid() && OnCourse(goal)
        invariant more ==> contexts != []
        invariant !more && !shouldStop ==> contexts == []
        decreases StackSize(contexts), more
      {
        if shouldStop {
          break;
        }
        var reloop := Scan(goal);
        if !reloop {
          Leave(goal);
        }
        more := contexts != [];
      }
      NothingAfter(Trace(events, false));
    }

    // The files that do not fill a job make up the last one.
    method DispatchRest()
      requires Valid()
      modifies this`fileJob, this`dispatched
      ensures AllDispatched(events, dispatched)
    {
      RestDispatched(events, dispatched, fileJob);
      if fileJob != [] {
        DispatchJob(fileJob);
        fileJob := [];
      }
    }

    method WalkEntered(ghost goal: Trace)
      requires Valid() && OnCourse(goal) && !shouldStop && contexts != []
      modifies this`shouldStop, this`fileCount, this`folderCount, this`stack, this`contexts
      modifies this`fileJob, this`dispatched, this`events
      ensures Trace(events, shouldStop) == goal && AllDispatched(events, dispatched)
      ensures Counted(events, folderCount, fileCount)
    {
      WalkStack(goal);
      DispatchRest();
    }

    // The first directory is offered; if it is not entered, that is the whole walk.
    method EnterRoot(root: Directory) returns (entered: bool)
      requires Valid() && events == [] && contexts == [] && !shouldStop
      modifies this`shouldStop, this`folderCount, this`stack, this`contexts, this`events
      ensures Valid() && (entered <==> Verdict(handlers, root).Continue?)
      ensures entered ==> OnCourse(Traverse(Watching(), root)) && !shouldStop && contexts != []
      ensures !entered ==> Trace(events, shouldStop) == Traverse(Watching(), root) && AllDispatched(events, dispatched)
    {
      RemainingEntered(Watching(), [], root);
      RootOffered(root);
      entered := OnDirectoryEnter(root);
      if entered {
        assert contexts == [Context(root, 0)];
        NothingAfter(TraverseEntries(Watching(), root.path, root.entries));
      }
    }

    // The walk tells the handlers exactly what the recursive traversal tells them, in the same
    // order, counts it, and hands the files over in that order. The aborted flag ends up false
    // whenever the first directory was entered, even if a handler asked to abort later on, and true
    // whenever it was not, even if it was only skipped.
    method Walk(root: Directory)
      requires Valid() && events == [] && contexts == [] && !shouldStop && aborted
      modifies this
      ensures Trace(events, shouldStop) == Traverse(Watching(), root)
      ensures folderCount == FoldersOf(events) && fileCount == |FilesOf(events)|
      ensures AllDispatched(events, dispatched)
      ensures aborted <==> FlagAfterwards(Watching(), root)
    {
      var entered := EnterRoot(root);
      if !entered {
        return;
      }
      WalkEntered(Traverse(Watching(), root));
      aborted := false;
    }

    lemma RootOffered(root: Directory)
      requires events == [] && contexts == [] && !shouldStop && FilesOf(events) == Concat(dispatched) + fileJob
      ensures Concat(dispatched) == [] && fileJob == []
      ensures events + [Offered(root.path, Verdict(handlers, root))] == [Offered(root.path, Verdict(handlers, root))]
    {
      assert |Concat(dispatched)| + |fileJob| == 0;
    }
  }

  lemma NothingAfter(a: Trace)
    ensures Then(a, Trace([], false)) == a
  {
    assert a.events + [] == a.events;
  }

  // ----- What the aborted flag says ------------------------------------------------------------

  predicate FlagAfterwards(w: Watch, root: Directory) {
    !Verdict(w.handlers, root).Continue?
  }

  // Some handler asked to abort.
  ghost predicate AskedToAbort(events: seq<Event>) {
    exists i :: 0 <= i < |events| && IsAbort(events[i])
  }

  ghost predicate IsAbort(event: Event) {
    event.Offered? && event.verdict.Abort?
  }

  ghost predicate TellsAborts(t: Trace) {
    t.aborted <==> AskedToAbort(t.events)
  }

  lemma ThenTellsAborts(a: Trace, b: Trace)
    requires TellsAborts(a) && TellsAborts(b)
    ensures TellsAborts(Then(a, b))
  {
    var both := a.events + b.events;
    if !a.aborted && b.aborted {
      var i :| 0 <= i < |b.events| && IsAbort(b.events[i]);
      assert IsAbort(both[|a.events| + i]);
    }
    if i :| 0 <= i < |both| && IsAbort(both[i]) {
      assert if i < |a.events| then IsAbort(a.events[i]) else IsAbort(b.events[i - |a.events|]);
    }
  }

  // A traversal is aborted exactly when some handler asked to.
  lemma {:induction false} TraversalTellsAborts(w: Watch, d: Directory)
    ensures TellsAborts(Traverse(w, d))
    decreases d, 1
  {
    var verdict := Verdict(w.handlers, d);
    var offered := Trace([Offered(d.path, verdict)], verdict.Abort?);
    assert IsAbort(offered.events[0]) <==> verdict.Abort?;
    if verdict.Continue? {
      EntriesTellAborts(w, d.path, d.entries);
      ThenTellsAborts(offered, TraverseEntries(w, d.path, d.entries));
    }
  }

  lemma {:induction false} EntriesTellAborts(w: Watch, path: string, entries: seq<Entry>)
    ensures TellsAborts(TraverseEntries(w, path, entries))
    decreases entries, 0
  {
    if entries != [] {
      EntryTellsAborts(w, path, entries[0]);
      EntriesTellAborts(w, path, entries[1..]);
      ThenTellsAborts(TraverseEntry(w, path, entries[0]), TraverseEntries(w, path, entries[1..]));
    }
  }

  lemma {:induction false} EntryTellsAborts(w: Watch, path: string, entry: Entry)
    ensures TellsAborts(TraverseEntry(w, path, entry))
    decreases entry, 0
  {
    if entry.Folder? {
      TraversalTellsAborts(w, entry.directory);
    }
  }

  // The flag says whether a handler asked to abort exactly when the first directory is not skipped
  // and none below it is aborted.
  lemma FlagTellsAbortsExactly(w: Watch, root: Directory)
    ensures (FlagAfterwards(w, root) <==> AskedToAbort(Traverse(w, root).events)) <==>
            match Verdict(w.handlers, root)
            case Abort => true
            case Skip => false
            case Continue => !TraverseEntries(w, root.path, root.entries).aborted
  {
    TraversalTellsAborts(w, root);
  }

  // Both ways it may be wrong: a skipped first directory, and a handler that aborts below it.
  ghost function Answers(path: string, flow: Flow): Watch {
    Watch([(p: string, empty: bool) => if p == path then flow else Continue], false)
  }

  lemma FlagMayBeWrong()
    ensures var root := Directory("a", [Folder(Directory("b", []))]);
      && FlagAfterwards(Answers("a", Skip), root) && !AskedToAbort(Traverse(Answers("a", Skip), root).events)
      && !FlagAfterwards(Answers("b", Abort), root) && AskedToAbort(Traverse(Answers("b", Abort), root).events)
  {
    var below := Directory("b", []);
    var root := Directory("a", [Folder(below)]);
    FlagTellsAbortsExactly(Answers("a", Skip), root);
    TraversalTellsAborts(Answers("a", Skip), root);
    VerdictOfAnswers("a", Skip, root);
    var w := Answers("b", Abort);
    VerdictOfAnswers("b", Abort, root);
    VerdictOfAnswers("b", Abort, below);
    assert Traverse(w, below) == Trace([Offered("b", Abort)], true);
    assert TraverseEntry(w, "a", root.entries[0]).aborted;
    assert TraverseEntries(w, "a", root.entries).aborted;
    TraversalTellsAborts(w, root);
  }

  lemma VerdictOfAnswers(path: string, flow: Flow, d: Directory)
    ensures Verdict(Answers(path, flow).handlers, d) == if d.path == path then flow else Continue
  {
    var handlers := Answers(path, flow).handlers;
    assert handlers[1..] == [];
    assert handlers[0](d.path, d.entries == []) == if d.path == path then flow else Continue;
  }
}
