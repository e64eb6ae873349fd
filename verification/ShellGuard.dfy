/** platform/xbox_uwp/Main.cpp: coroutines that suspend among key and suspend events, and the flags that guard them.
    A method runs from one suspension to the next; whatever the system answers is chosen freely. */
module ShellGuard {
  import opened Options

  datatype Page = Home | Games | Settings | Diagnostics

  datatype FolderState = NotConfigured | Restoring | FolderReady | FolderFailed

  datatype ScanState = Inactive | Scanning | NoGames | GamesReady | ScanFailed

  datatype Key = Up | Down | Left | Right | Accept | Back | Rescan | OtherKey

  datatype Header = Unknown | Preparing | Blocked | PreparationFailed | ReadFailed

  datatype Game = Game(title: string, header: Header)

  /** A suspended coroutine. A startup remembers the generation it was given and where it waits. */
  datatype Task =
    | Detecting
    | OpeningFolder
    | OpeningParent
    | ScanningLibrary
    | Starting(generation: nat, selected: nat, title: string, list: seq<string>, stage: nat)

  predicate SameAttempt(t: Task, u: Task) {
    t == u || (t.Starting? && u.Starting? && t.generation == u.generation)
  }

  function Titles(games: seq<Game>): (t: seq<string>)
    ensures |t| == |games|
    ensures forall i :: 0 <= i < |t| ==> t[i] == games[i].title
  {
    if games == [] then [] else Titles(games[..|games| - 1]) + [games[|games| - 1].title]
  }

  lemma TitlesOfUpdate(games: seq<Game>, i: nat, h: Header)
    requires i < |games|
    ensures Titles(games[i := games[i].(header := h)]) == Titles(games)
  {
  }

  /** Shell state and flags. */
  datatype Picture = Picture(
    page: Page, selectedItem: nat, folderState: FolderState, scanState: ScanState, selectionConfirmed: bool,
    hasFolder: bool, entries: nat, selectedEntry: nat, depth: nat, games: seq<Game>, executables: seq<bool>,
    selectedGame: nat, libraryActive: bool, startupActive: bool, generation: nat, session: bool)

  datatype Snapshot = Snapshot(picture: Picture, tasks: map<nat, Task>, nextTask: nat)

  class Shell {
    var page: Page
    var selectedItem: nat
    var folderState: FolderState
    var scanState: ScanState
    var selectionConfirmed: bool
    var hasFolder: bool
    var entries: nat
    var selectedEntry: nat
    var depth: nat
    var games: seq<Game>
    var executables: seq<bool>
    var selectedGame: nat
    var libraryActive: bool
    var startupActive: bool
    var generation: nat
    var session: bool
    /** The coroutines that are suspended, by the order in which they first were. */
    var tasks: map<nat, Task>
    var nextTask: nat
    /** The one whose result still counts. */
    ghost var owner: Option<nat>

    ghost predicate Current(t: Task)
      reads `generation
    {
      t.Starting? ==> t.generation == generation
    }

    /** A live attempt finds the list it started with, its own entry in it, and no session; a walk to the parent
        folder still finds one. */
    ghost predicate Undisturbed(t: Task)
      reads `games, `session, `depth
    {
      && (t.OpeningParent? ==> depth > 0)
      && (t.Starting? ==> Titles(games) == t.list && t.selected < |t.list| && t.list[t.selected] == t.title && !session)
    }

    ghost predicate Valid()
      reads this
    {
      && (libraryActive <==> owner.Some?)
      && (startupActive <==> owner.Some? && owner.value in tasks && tasks[owner.value].Starting?)
      && (startupActive ==> page == Games)
      && (owner.Some? ==> owner.value in tasks && Current(tasks[owner.value]) && Undisturbed(tasks[owner.value]))
      && (forall a :: a in tasks && Current(tasks[a]) ==> owner == Some(a))
      && (forall a :: a in tasks ==> a < nextTask && (tasks[a].Starting? ==> tasks[a].generation <= generation))
    }

    function Shows(): Picture
      reads this
    {
      Picture(page, selectedItem, folderState, scanState, selectionConfirmed, hasFolder, entries, selectedEntry, depth,
              games, executables, selectedGame, libraryActive, startupActive, generation, session)
    }

    function Now(): Snapshot
      reads this
    {
      Snapshot(Shows(), tasks, nextTask)
    }

    /** Generations and task numbers only grow, and a task that still waits keeps its generation. */
    twostate predicate Onward()
      reads `generation, `tasks, `nextTask
    {
      && generation >= old(generation) && nextTask >= old(nextTask)
      && forall id :: id in tasks && id < old(nextTask) ==> id in old(tasks) && SameAttempt(old(tasks)[id], tasks[id])
    }

    constructor ()
      ensures Valid() && tasks == map[] && !session
    {
      page, selectedItem, folderState, scanState := Home, 0, NotConfigured, Inactive;
      selectionConfirmed, hasFolder, entries, selectedEntry, depth := false, false, 0, 0, 0;
      games, executables, selectedGame := [], [], 0;
      libraryActive, startupActive, generation, session := false, false, 0, false;
      tasks, nextTask, owner := map[], 0, None;
    }

    /** A coroutine suspends for the first time, with the flag raised. */
    method Suspend(t: Task)
      requires libraryActive && owner == None && startupActive == t.Starting? && Current(t) && Undisturbed(t)
      requires startupActive ==> page == Games
      requires forall a :: a in tasks ==> a < nextTask && !Current(tasks[a])
      requires forall a :: a in tasks ==> (tasks[a].Starting? ==> tasks[a].generation <= generation)
      modifies `tasks, `nextTask, `owner
      ensures Valid() && owner == Some(old(nextTask)) && tasks == old(tasks)[old(nextTask) := t] && Onward()
    {
      tasks := tasks[nextTask := t];
      owner := Some(nextTask);
      nextTask := nextTask + 1;
    }

    /** A session that will not be released stays. Reporting the release may throw. */
    method ReleaseStartup() returns (threw: bool)
      modifies `session
      ensures session ==> old(session)
    {
      threw := false;
      if session {
        session := *;
        threw := *;
      }
    }

    // ----- library operations ----------------------------------------------------------------------------------------

    method SetLibraryFailure()
      modifies `libraryActive, `folderState, `entries, `selectionConfirmed
      ensures !libraryActive && folderState == FolderFailed && entries == 0 && !selectionConfirmed
    {
      libraryActive := false;
      folderState, entries, selectionConfirmed := FolderFailed, 0, false;
    }

    /** The operation waits as the only one, or has failed. */
    twostate predicate BegunOrFailed(t: Task)
      reads this
    {
      && Onward() && !selectionConfirmed && (t == Detecting ==> entries == 0)
      && if libraryActive then
           folderState == Restoring && owner == Some(old(nextTask)) && tasks == old(tasks)[old(nextTask) := t]
         else
           folderState == FolderFailed && owner == None && tasks == old(tasks)
    }

    /** The three browser coroutines up to their first suspension. */
    method BeginBrowsing(t: Task)
      requires Valid() && !libraryActive && t in {Detecting, OpeningFolder, OpeningParent}
      requires (t.OpeningParent? ==> depth > 0)
      modifies `libraryActive, `folderState, `entries, `selectionConfirmed, `tasks, `nextTask, `owner
      ensures Valid() && BegunOrFailed(t)
    {
      libraryActive := true;
      folderState, selectionConfirmed := Restoring, false;
      if t == Detecting {
        entries := 0;
      }
      if * {
        SetLibraryFailure();
        return;
      }
      Suspend(t);
    }

    method DetectRemovableStorage()
      requires Valid()
      modifies `libraryActive, `folderState, `entries, `selectionConfirmed, `tasks, `nextTask, `owner
      ensures Valid() && if old(libraryActive) then unchanged(this) else BegunOrFailed(Detecting)
    {
      if libraryActive {
        return;
      }
      BeginBrowsing(Detecting);
    }

    method OpenSelectedFolder()
      requires Valid()
      modifies `libraryActive, `folderState, `entries, `selectionConfirmed, `tasks, `nextTask, `owner
      ensures Valid()
      ensures if old(libraryActive) || selectedEntry >= old(entries) then unchanged(this)
                  else BegunOrFailed(OpeningFolder)
    {
      if libraryActive || selectedEntry >= entries {
        return;
      }
      BeginBrowsing(OpeningFolder);
    }

    method OpenParentFolder()
      requires Valid()
      modifies `libraryActive, `folderState, `entries, `selectionConfirmed, `tasks, `nextTask, `owner
      ensures Valid() && if old(libraryActive) || depth == 0 then unchanged(this) else BegunOrFailed(OpeningParent)
    {
      if libraryActive || depth == 0 {
        return;
      }
      BeginBrowsing(OpeningParent);
    }

    /** The list is empty and the scan waits as the only operation, or has failed. */
    twostate predicate ScanBegunOrFailed()
      reads this
    {
      && Onward() && games == [] && selectedGame == 0
      && if libraryActive then
           scanState == Scanning && owner == Some(old(nextTask))
               && tasks == old(tasks)[old(nextTask) := ScanningLibrary]
         else
           scanState == ScanFailed && owner == None && tasks == old(tasks)
    }

    method ScanSelectedLibrary()
      requires Valid()
      modifies `libraryActive, `scanState, `games, `selectedGame, `tasks, `nextTask, `owner
      ensures Valid() && if old(libraryActive) || !hasFolder then unchanged(this) else ScanBegunOrFailed()
    {
      if libraryActive || !hasFolder {
        return;
      }
      libraryActive := true;
      scanState, games, selectedGame := Scanning, [], 0;
      if * {
        libraryActive, scanState := false, ScanFailed;
        return;
      }
      Suspend(ScanningLibrary);
    }

    method SelectCurrentLibraryFolder()
      requires Valid()
      modifies `libraryActive, `scanState, `games, `selectedGame, `selectionConfirmed, `tasks, `nextTask, `owner
      ensures Valid()
      ensures if old(libraryActive) || !hasFolder then unchanged(this) else selectionConfirmed && ScanBegunOrFailed()
    {
      if !hasFolder || libraryActive {
        return;
      }
      selectionConfirmed := true;
      ScanSelectedLibrary();
    }

    // ----- startup ---------------------------------------------------------------------------------------------------

    method SetHeader(selected: nat, h: Header)
      requires selected < |games|
      modifies `games
      ensures Titles(games) == old(Titles(games)) && selected < |games| && games[selected].header == h
    {
      TitlesOfUpdate(games, selected, h);
      games := games[selected := games[selected].(header := h)];
    }

    /** What the two catch blocks show. */
    method FailedHeader(selected: nat)
      requires selected < |games|
      modifies `games
      ensures Titles(games) == old(Titles(games)) && selected < |games|
      ensures games[selected].header in {PreparationFailed, ReadFailed}
    {
      var known: bool := *;
      SetHeader(selected, if known then ReadFailed else PreparationFailed);
    }

    /** Starts an attempt unless some operation is running or there is nothing to start. */
    method PrepareSelectedStartup()
      requires Valid() && page == Games
      modifies `games, `generation, `libraryActive, `startupActive, `session, `tasks, `nextTask, `owner
      ensures Valid()
      ensures if old(libraryActive) || selectedGame >= |executables| || selectedGame >= old(|games|)
                  || !executables[selectedGame] then
                unchanged(this)
              else
                generation == old(generation) + 1 && selectedGame < |games|
                && (startupActive || (!libraryActive && games[selectedGame].header in {PreparationFailed, ReadFailed}))
      ensures startupActive && !old(startupActive) ==> !session && generation == old(generation) + 1
      ensures startupActive && !old(startupActive) ==>
                && selectedGame < |executables| && executables[selectedGame] && owner == Some(old(nextTask))
                && selectedGame < |games| && games[selectedGame].header == Preparing
                && tasks == old(tasks)[old(nextTask) := Starting(generation, selectedGame, games[selectedGame].title,
                                                                 Titles(games), 0)]
      ensures Titles(games) == old(Titles(games)) && Onward() && (session ==> old(session))
    {
      hide Titles;
      var selected := selectedGame;
      if libraryActive || selected >= |executables| || selected >= |games| || !executables[selected] {
        return;
      }
      var title := games[selected].title;
      generation := generation + 1;
      libraryActive, startupActive := true, true;
      SetHeader(selected, Preparing);
      var threw := ReleaseStartup();
      var failed: bool := *;
      if threw || session || failed {
        FailedHeader(selected);
        libraryActive, startupActive := false, false;
        return;
      }
      Suspend(Starting(generation, selected, title, Titles(games), 0));
    }

    // ----- resumption ------------------------------------------------------------------------------------------------

    /** A coroutine that still counts takes its task off; it will lower the flags itself. */
    method Finish(id: nat)
      requires Valid() && owner == Some(id)
      modifies `tasks, `owner
      ensures owner == None && tasks == old(tasks) - {id}
      ensures forall a :: a in tasks ==> a < nextTask && !Current(tasks[a])
      ensures forall a :: a in tasks && tasks[a].Starting? ==> tasks[a].generation <= generation
    {
      tasks := tasks - {id};
      owner := None;
    }

    /** The browser shows a folder with n subfolders. It may throw at its start, among the entries, before the list is
        cleared, or at its end. */
    method SetBrowserReady(n: nat) returns (threw: bool)
      modifies `hasFolder, `entries, `folderState, `selectedEntry, `selectionConfirmed, `scanState, `games
      modifies `selectedGame
      ensures !threw ==> folderState == FolderReady && hasFolder && entries == n && games == [] && scanState == Inactive
      ensures games == old(games) || (games == [] && scanState == Inactive && hasFolder)
    {
      threw := *;
      if threw {
        return;
      }
      hasFolder, entries := true, 0;
      threw := *;
      if threw {
        entries := *;
        return;
      }
      entries, folderState := n, FolderReady;
      threw := *;
      if threw {
        return;
      }
      selectedEntry, selectionConfirmed, scanState, games, selectedGame := 0, false, Inactive, [], 0;
      threw := *;
    }

    /** A library coroutine runs on: it waits again, fails, or ends; detection may go straight on to a scan. On its
        way to the remembered folder detection changes the depth. */
    method ResumeBrowsing(id: nat)
      requires Valid() && id in tasks && tasks[id] in {Detecting, OpeningFolder, OpeningParent}
      modifies this
      ensures Valid()
      ensures generation == old(generation) && session == old(session) && !startupActive && page == old(page)
      ensures Onward()
      ensures id in tasks ==>
                tasks == old(tasks) && owner == old(owner) && games == old(games) && folderState == old(folderState)
      ensures id !in tasks ==> BrowsingEnded(old(tasks)[id], old(nextTask), old(tasks) - {id})
      ensures id in tasks && old(tasks)[id] != Detecting ==> depth == old(depth)
    {
      hide Titles;
      var t := tasks[id];
      if t == Detecting {
        depth := *;
      }
      if * {
        return;
      }
      Finish(id);
      libraryActive := false;
      if * {
        SetLibraryFailure();
        return;
      }
      ShowFolder(t);
    }

    /** Nothing waits but, behind a detection, the scan of the folder it found. */
    ghost predicate BrowsingEnded(t: Task, next: nat, others: map<nat, Task>)
      reads this
    {
      if libraryActive then
        t == Detecting && scanState == Scanning && games == [] && owner == Some(next)
            && tasks == others[next := ScanningLibrary]
      else
        owner == None && tasks == others && folderState in {NotConfigured, FolderReady, FolderFailed}
        && (folderState == FolderReady ==> hasFolder && games == [] && scanState in {Inactive, ScanFailed})
    }

    method ShowFolder(t: Task)
      requires Valid() && owner == None && (t.OpeningParent? ==> depth > 0)
      requires t in {Detecting, OpeningFolder, OpeningParent}
      modifies this
      ensures Valid() && BrowsingEnded(t, old(nextTask), old(tasks))
      ensures generation == old(generation) && session == old(session) && !startupActive && page == old(page)
      ensures Onward()
    {
      hide Titles;
      if t == Detecting {
        if * {
          hasFolder, entries, depth, folderState := false, 0, 0, NotConfigured;
          return;
        }
        depth := *;
      } else if t == OpeningFolder {
        depth := depth + 1;
      } else {
        depth := depth - 1;
      }
      var n: nat := *;
      var threw := SetBrowserReady(n);
      if threw {
        SetLibraryFailure();
      } else if t == Detecting {
        ScanRestored();
      }
    }

    /** A remembered folder is scanned at once. */
    method ScanRestored()
      requires Valid() && owner == None && hasFolder
      modifies `libraryActive, `scanState, `games, `selectedGame, `selectionConfirmed, `tasks, `nextTask, `owner
      ensures Valid() && (ScanBegunOrFailed() || unchanged(this))
    {
      var restored: bool := *;
      if restored {
        selectionConfirmed := true;
        ScanSelectedLibrary();
      }
    }

    /** A scan runs on. Ending, it stores the list it found with what can be played, and says whether it is empty; a
        report that fails says so in spite of the list. Throwing, it leaves the old list, or as much of the new one
        as it had stored. */
    method ResumeScan(id: nat, found: seq<Game>, playable: seq<bool>)
      requires Valid() && id in tasks && tasks[id] == ScanningLibrary && |playable| == |found|
      modifies `libraryActive, `scanState, `games, `executables, `tasks, `owner
      ensures Valid()
      ensures Onward() && (id in tasks ==> unchanged(this))
      ensures id !in tasks ==> !libraryActive && owner == None && tasks == old(tasks) - {id}
      ensures id !in tasks && scanState != ScanFailed ==>
                games == found && executables == playable && scanState == if found == [] then NoGames else GamesReady
      ensures id !in tasks && scanState == ScanFailed ==>
                || unchanged(`games, `executables)
                || (games <= found && executables <= playable && |games| - 1 <= |executables| <= |games|)
    {
      if * {
        return;
      }
      Finish(id);
      libraryActive := false;
      if * {
        scanState := ScanFailed;
        return;
      }
      var stored: nat, played: nat := *, *;
      if stored <= |found| && stored - 1 <= played <= stored {
        games, executables, scanState := found[..stored], playable[..played], ScanFailed;
        return;
      }
      games, executables := found, playable;
      scanState := if found == [] then NoGames else GamesReady;
      if * {
        scanState := ScanFailed;
      }
    }

    /** An attempt runs on. Cancelled attempts change nothing: no shell state, no flag, no session. */
    method ResumeStartup(id: nat, t: Task)
      requires Valid() && id in tasks && tasks[id] == t && t.Starting?
      modifies `games, `libraryActive, `startupActive, `session, `tasks, `owner
      ensures Valid()
      ensures t.generation != generation ==>
                owner != Some(id) && unchanged(`games, `libraryActive, `startupActive, `session, `owner)
      ensures t.generation == generation ==>
                old(owner) == Some(id) && !old(session) && Titles(games) == t.list == old(Titles(games))
      ensures tasks == old(tasks) - {id} || tasks == old(tasks)[id := t.(stage := t.stage + 1)]
      ensures t.generation == generation && id !in tasks ==> !libraryActive && !startupActive && owner == None
      ensures session && !old(session) ==> t.stage >= 2 && id !in tasks
      ensures Onward()
    {
      hide Titles;
      var failed: bool := *;
      if t.stage == 0 && !failed {
        Reenter(id, t, 1);
        return;
      }
      if t.generation != generation {
        tasks := tasks - {id};
        return;
      }
      if t.stage == 1 && !failed {
        Reenter(id, t, 2);
        return;
      }
      Finish(id);
      if !failed {
        failed := CreateSession(t.selected);
      }
      if failed {
        FailedHeader(t.selected);
      }
      libraryActive, startupActive := false, false;
    }

    /** The coroutine waits again. */
    method Reenter(id: nat, t: Task, stage: nat)
      requires Valid() && id in tasks && tasks[id] == t && t.Starting?
      modifies `tasks
      ensures Valid() && tasks == old(tasks)[id := t.(stage := stage)]
    {
      hide Titles;
      tasks := tasks[id := t.(stage := stage)];
    }

    /** The only place that makes a session, and there is none to replace. */
    method CreateSession(selected: nat) returns (threw: bool)
      requires selected < |games| && !session
      modifies `session, `games
      ensures Titles(games) == old(Titles(games))
    {
      threw := *;
      if threw {
        return;
      }
      session := true;
      threw := *;
      if !threw {
        var prepared: bool := *;
        SetHeader(selected, if prepared then Blocked else PreparationFailed);
      }
    }

    method Resume(id: nat)
      requires Valid()
      modifies this
      ensures Valid()
      ensures generation == old(generation) && page == old(page) && Onward()
      ensures id !in old(tasks) ==> unchanged(this)
      ensures id in old(tasks) && old(tasks)[id].Starting? && old(tasks)[id].generation != generation ==>
                Shows() == old(Shows()) && unchanged(`owner)
      ensures session && !old(session) ==>
                id in old(tasks) && old(tasks)[id].Starting? && old(tasks)[id].generation == generation
    {
      hide Titles;
      if id !in tasks {
        return;
      }
      var t := tasks[id];
      if t.Starting? {
        ResumeStartup(id, t);
      } else if t == ScanningLibrary {
        var found: seq<Game>, playable: seq<bool> := *, *;
        if |playable| == |found| {
          ResumeScan(id, found, playable);
        }
      } else {
        ResumeBrowsing(id);
      }
    }

    // ----- events ----------------------------------------------------------------------------------------------------

    /** Back during a startup: whatever the attempt still does, it no longer counts. */
    method CancelStartup()
      requires Valid() && startupActive
      modifies `generation, `libraryActive, `startupActive, `scanState, `games, `session, `owner
      ensures Valid() && !libraryActive && !startupActive && generation == old(generation) + 1 && owner == None
      ensures games == []
      ensures session ==> old(session)
    {
      generation := generation + 1;
      libraryActive, startupActive := false, false;
      owner := None;
      scanState, games := Inactive, [];
      var threw := ReleaseStartup();
    }

    method KeyInGames(key: Key)
      requires Valid() && page == Games && !libraryActive
      modifies this
      ensures Valid()
      ensures key in {Up, Down} ==>
                owner == old(owner) && games == old(games) && page == old(page) && session == old(session)
      ensures key == Up && folderState == FolderReady && scanState != Inactive && games != [] ==>
                selectedGame == (old(selectedGame) + |games| - 1) % |games|
      ensures key == Down && folderState == FolderReady && scanState != Inactive && games != [] ==>
                selectedGame == (old(selectedGame) + 1) % |games|
      ensures startupActive ==>
                key == Accept && old(folderState) == FolderReady && old(scanState) != Inactive && !session
      ensures Onward() && (session ==> old(session))
    {
      hide Titles;
      if folderState == FolderReady {
        if scanState != Inactive {
          if key == Up && games != [] {
            selectedGame := (selectedGame + |games| - 1) % |games|;
          } else if key == Down && games != [] {
            selectedGame := (selectedGame + 1) % |games|;
          } else if key == Accept {
            PrepareSelectedStartup();
          } else if key == Rescan {
            var threw := ReleaseStartup();
            if !threw {
              ScanSelectedLibrary();
            }
          } else if key == Back {
            scanState, games, selectedGame := Inactive, [], 0;
            var threw := ReleaseStartup();
          }
        } else if key == Up && entries != 0 {
          selectedEntry, selectionConfirmed := (selectedEntry + entries - 1) % entries, false;
        } else if key == Down && entries != 0 {
          selectedEntry, selectionConfirmed := (selectedEntry + 1) % entries, false;
        } else if key == Accept {
          OpenSelectedFolder();
        } else if key == Rescan {
          SelectCurrentLibraryFolder();
        } else if key == Back {
          if depth == 0 {
            page := Home;
          } else {
            OpenParentFolder();
          }
        }
      } else if key == Accept {
        DetectRemovableStorage();
      } else if key == Back {
        page := Home;
      }
    }

    /** While an operation runs, the games page takes no key but Back for a startup. */
    method OnKeyDown(key: Key)
      requires Valid()
      modifies this
      ensures Valid()
      ensures old(startupActive) && key == Back ==> !libraryActive && owner == None && generation == old(generation) + 1
      ensures old(startupActive) && key != Back ==> unchanged(this)
      ensures old(libraryActive) && !old(startupActive) && old(page) == Games ==> unchanged(this)
      ensures old(page) != Games ==> owner == old(owner) && games == old(games)
      ensures Onward() && (session ==> old(session))
    {
      hide Titles;
      if page == Home {
        if key == Left {
          selectedItem := (selectedItem + 2) % 3;
        } else if key == Right {
          selectedItem := (selectedItem + 1) % 3;
        } else if key == Accept {
          page := if selectedItem == 0 then Games else if selectedItem == 1 then Settings else Diagnostics;
        }
      } else if page == Games {
        if libraryActive {
          if startupActive && key == Back {
            CancelStartup();
          }
          return;
        }
        KeyInGames(key);
      } else if key == Back {
        page := Home;
      }
    }

    /** Suspension cancels a startup but not a library operation. */
    method OnSuspending()
      requires Valid()
      modifies `generation, `libraryActive, `startupActive, `session, `owner
      ensures Valid() && !startupActive && generation == old(generation) + 1
      ensures owner == if old(startupActive) then None else old(owner)
      ensures session ==> old(session)
    {
      hide Titles;
      generation := generation + 1;
      if startupActive {
        libraryActive, startupActive := false, false;
        owner := None;
      }
      var threw := ReleaseStartup();
    }

    /** At most one suspended coroutine still counts, and the flags say which kind. */
    lemma OneOperation(a: nat, b: nat)
      requires Valid() && a in tasks && b in tasks && Current(tasks[a]) && Current(tasks[b])
      ensures a == b && libraryActive && startupActive == tasks[a].Starting?
    {
    }
  }

  datatype Event = Activate | KeyDown(key: Key) | Suspending | Resumption(id: nat)

  // ----- whole runs ------------------------------------------------------------------------------------------------

  /** Attempt id waits, and would still count. */
  predicate Live(s: Snapshot, id: nat) {
    id in s.tasks && s.tasks[id].Starting? && s.tasks[id].generation == s.picture.generation
  }

  /** Attempt id was cancelled and still waits, or is over. */
  predicate Cancelled(s: Snapshot, id: nat) {
    && id < s.nextTask
    && (id in s.tasks ==> s.tasks[id].Starting? && s.tasks[id].generation < s.picture.generation)
  }

  /** At most one attempt is live; the flags are up for it; it sees the list it started with, and no session. */
  ghost predicate Sound(s: Snapshot) {
    && (forall a, b :: Live(s, a) && Live(s, b) ==> a == b)
    && (forall id :: Live(s, id) ==> LiveIsFlagged(s, id))
    && (forall id :: id in s.tasks ==> id < s.nextTask)
    && (forall id :: id in s.tasks && s.tasks[id].Starting? ==> s.tasks[id].generation <= s.picture.generation)
  }

  predicate LiveIsFlagged(s: Snapshot, id: nat)
    requires id in s.tasks && s.tasks[id].Starting?
  {
    var t := s.tasks[id];
    && s.picture.libraryActive && s.picture.startupActive && !s.picture.session
    && Titles(s.picture.games) == t.list && t.selected < |s.picture.games|
    && s.picture.games[t.selected].title == t.title
  }

  /** What one event may do. */
  ghost predicate Follows(s: Snapshot, e: Event, t: Snapshot) {
    && t.picture.generation >= s.picture.generation && t.nextTask >= s.nextTask
    && (forall id :: id in t.tasks && id < s.nextTask ==> id in s.tasks && SameAttempt(s.tasks[id], t.tasks[id]))
    && (e.Resumption? && Cancelled(s, e.id) ==> t.picture == s.picture)
    && (t.picture.session && !s.picture.session ==> e.Resumption? && Live(s, e.id))
  }

  /** A history of snapshots, one before each event and one at the end. */
  ghost predicate History(trace: seq<Snapshot>, events: seq<Event>) {
    && |trace| == |events| + 1
    && (forall i :: 0 <= i < |trace| ==> Sound(trace[i]))
    && (forall i :: 0 <= i < |events| ==> Follows(trace[i], events[i], trace[i + 1]))
  }

  /** Cancelled once, cancelled ever after. */
  lemma {:induction false} CancelledForGood(trace: seq<Snapshot>, events: seq<Event>, id: nat, i: nat, j: nat)
    requires History(trace, events) && i <= j <= |events| && Cancelled(trace[i], id)
    ensures Cancelled(trace[j], id)
  {
    hide Sound;
    if i < j {
      CancelledForGood(trace, events, id, i, j - 1);
      assert Follows(trace[j - 1], events[j - 1], trace[j]);
    }
  }

  /** Whatever resumes it later, a cancelled attempt writes no shell state and no flag and makes no session. */
  lemma CancelledIsHarmless(trace: seq<Snapshot>, events: seq<Event>, id: nat, i: nat, j: nat)
    requires History(trace, events) && i <= j < |events| && Cancelled(trace[i], id) && events[j] == Resumption(id)
    ensures trace[j + 1].picture == trace[j].picture
  {
    hide Sound;
    CancelledForGood(trace, events, id, i, j);
    assert Follows(trace[j], events[j], trace[j + 1]);
  }

  /** An attempt that is not live any more never is again. */
  lemma LiveNoMore(trace: seq<Snapshot>, events: seq<Event>, id: nat, i: nat, j: nat)
    requires History(trace, events) && i <= j <= |events| && id < trace[i].nextTask && !Live(trace[i], id)
    requires id in trace[i].tasks ==> trace[i].tasks[id].Starting?
    ensures !Live(trace[j], id)
  {
    assert Sound(trace[i]);
    CancelledForGood(trace, events, id, i, j);
  }

  /** A session comes from the resumption of an attempt that was never cancelled before. */
  lemma SessionsAreLive(trace: seq<Snapshot>, events: seq<Event>, j: nat, i: nat)
    requires History(trace, events) && i <= j < |events| && trace[j + 1].picture.session && !trace[j].picture.session
    ensures events[j].Resumption? && Live(trace[j], events[j].id) && !Cancelled(trace[i], events[j].id)
  {
    hide Sound;
    assert Follows(trace[j], events[j], trace[j + 1]);
    if Cancelled(trace[i], events[j].id) {
      CancelledForGood(trace, events, events[j].id, i, j);
    }
  }

  /** Any order of keys, suspensions and resumptions gives such a history. */
  method Run(shell: Shell, events: seq<Event>) returns (ghost trace: seq<Snapshot>)
    requires shell.Valid()
    modifies shell
    ensures shell.Valid()
    ensures History(trace, events) && trace[0] == old(shell.Now()) && trace[|events|] == shell.Now()
    ensures forall id: nat, i, j :: 0 <= i <= j < |events| && Cancelled(trace[i], id) && events[j] == Resumption(id) ==>
                                      trace[j + 1].picture == trace[j].picture
  {
    hide shell.Valid, Sound, Follows, shell.Now, Cancelled;
    trace := [shell.Now()];
    ValidIsSound(shell);
    for n := 0 to |events|
      invariant shell.Valid() && History(trace, events[..n]) && trace[0] == old(shell.Now()) && trace[n] == shell.Now()
    {
      Happen(shell, events[n]);
      ValidIsSound(shell);
      assert events[..n + 1] == events[..n] + [events[n]];
      trace := trace + [shell.Now()];
    }
    assert events[..|events|] == events;
    forall id: nat, i, j | 0 <= i <= j < |events| && Cancelled(trace[i], id) && events[j] == Resumption(id)
      ensures trace[j + 1].picture == trace[j].picture
    {
      CancelledIsHarmless(trace, events, id, i, j);
    }
  }

  lemma ValidIsSound(shell: Shell)
    requires shell.Valid()
    ensures Sound(shell.Now())
  {
    hide Titles;
    var s := shell.Now();
    forall id | Live(s, id) ensures LiveIsFlagged(s, id) {
      TitlesAt(s.picture.games, s.tasks[id].selected);
    }
  }

  lemma TitlesAt(games: seq<Game>, i: nat)
    ensures |Titles(games)| == |games| && (i < |games| ==> Titles(games)[i] == games[i].title)
  {
  }

  method Happen(shell: Shell, event: Event)
    requires shell.Valid()
    modifies shell
    ensures shell.Valid() && Follows(old(shell.Now()), event, shell.Now())
  {
    hide shell.Valid, Titles;
    match event {
      case Activate => shell.DetectRemovableStorage();
      case KeyDown(key) => shell.OnKeyDown(key);
      case Suspending => shell.OnSuspending();
      case Resumption(id) =>
        shell.Resume(id);
    }
  }
}
