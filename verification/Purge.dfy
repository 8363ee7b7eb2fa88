/**
 * scripts/purge-deleted.ts: the first half of the chain that ends in the sweep. Trashed rows go,
 * with what cascades from them; their blobs are left for the sweep, which takes them only then.
 */
module Purge {
  import opened Text
  import opened ObjectStore
  import opened Sweep

  datatype Board = Board(deletedAt: Option<int>)
  datatype File = File(board: Option<nat>, storageKey: string, deletedAt: Option<int>)
  datatype Snapshot = Snapshot(board: nat, storageKey: string)
  datatype Update = Update(board: nat)
  /** An export job goes with its board; it keeps its result file from being deleted before that. */
  datatype Job = Job(board: nat, file: Option<nat>)
  /** A named version goes with its board; it keeps its snapshot from being deleted before that. */
  datatype Version = Version(board: nat, snapshot: nat)

  datatype Tables = Tables(
    boards: map<nat, Board>,
    files: map<nat, File>,
    snapshots: map<nat, Snapshot>,
    updates: map<nat, Update>,
    jobs: map<nat, Job>,
    versions: map<nat, Version>,
    templateFiles: set<nat>)

  datatype Counts = Counts(boards: nat, boardUpdates: nat, boardSnapshots: nat, files: nat)

  const DAY := 86_400_000

  predicate Expired(deletedAt: Option<int>, now: int, days: int) {
    deletedAt.Some? && deletedAt.value < now - days * DAY
  }

  predicate BoardGoes(t: Tables, board: nat, now: int, days: int) {
    board in t.boards && Expired(t.boards[board].deletedAt, now, days)
  }

  /** A file goes by its own date or with its board. */
  predicate FileGoes(t: Tables, f: File, now: int, days: int) {
    Expired(f.deletedAt, now, days) || (f.board.Some? && BoardGoes(t, f.board.value, now, days))
  }

  /** Every row's board exists: the foreign keys. */
  ghost predicate References(t: Tables) {
    && (forall f :: f in t.files && t.files[f].board.Some? ==> t.files[f].board.value in t.boards)
    && (forall s :: s in t.snapshots ==> t.snapshots[s].board in t.boards)
    && (forall u :: u in t.updates ==> t.updates[u].board in t.boards)
    && (forall j :: j in t.jobs ==> t.jobs[j].board in t.boards)
    && (forall j :: j in t.jobs && t.jobs[j].file.Some? ==> t.jobs[j].file.value in t.files)
    && (forall v :: v in t.versions ==> t.versions[v].board in t.boards && t.versions[v].snapshot in t.snapshots)
    && t.templateFiles <= t.files.Keys
  }

  function GoingBoards(t: Tables, now: int, days: int): set<nat> {
    set b | b in t.boards && BoardGoes(t, b, now, days)
  }

  function GoingFiles(t: Tables, now: int, days: int): set<nat> {
    set f | f in t.files && FileGoes(t, t.files[f], now, days)
  }

  function GoingSnapshots(t: Tables, now: int, days: int): set<nat> {
    set s | s in t.snapshots && BoardGoes(t, t.snapshots[s].board, now, days)
  }

  function GoingUpdates(t: Tables, now: int, days: int): set<nat> {
    set u | u in t.updates && BoardGoes(t, t.updates[u].board, now, days)
  }

  // ----- in dates alone -----

  /**
   * What goes, by the rows' dates alone: strictly more than `days` times 86,400,000 milliseconds ago. A row
   * without a date on itself or its board is not among it.
   */
  lemma GoingByDates(t: Tables, now: int, days: int)
    ensures GoingBoards(t, now, days) ==
            set b | b in t.boards && t.boards[b].deletedAt.Some?
                    && t.boards[b].deletedAt.value + days * 86_400_000 < now
    ensures GoingFiles(t, now, days) ==
            set f | f in t.files &&
                    ((t.files[f].deletedAt.Some? && t.files[f].deletedAt.value + days * 86_400_000 < now)
                     || (t.files[f].board.Some? && t.files[f].board.value in t.boards
                         && t.boards[t.files[f].board.value].deletedAt.Some?
                         && t.boards[t.files[f].board.value].deletedAt.value + days * 86_400_000 < now))
    ensures GoingSnapshots(t, now, days) ==
            set s | s in t.snapshots && t.snapshots[s].board in t.boards
                    && t.boards[t.snapshots[s].board].deletedAt.Some?
                    && t.boards[t.snapshots[s].board].deletedAt.value + days * 86_400_000 < now
    ensures GoingUpdates(t, now, days) ==
            set u | u in t.updates && t.updates[u].board in t.boards
                    && t.boards[t.updates[u].board].deletedAt.Some?
                    && t.boards[t.updates[u].board].deletedAt.value + days * 86_400_000 < now
  {}

  // ----- the counts, as the four queries compute them -----

  /** `board_updates u JOIN boards b ON b.id = u.board_id`, where the board has expired. */
  function UpdatesJoined(t: Tables, now: int, days: int): set<(nat, nat)> {
    set u, b | u in t.updates && b in t.boards && b == t.updates[u].board
      && Expired(t.boards[b].deletedAt, now, days) :: (u, b)
  }

  function SnapshotsJoined(t: Tables, now: int, days: int): set<(nat, nat)> {
    set s, b | s in t.snapshots && b in t.boards && b == t.snapshots[s].board
      && Expired(t.boards[b].deletedAt, now, days) :: (s, b)
  }

  /** What a left join on the board pairs a file with: each board of that id, or nothing. */
  function BoardsJoined(t: Tables, f: File): set<Option<nat>> {
    var found := set b | b in t.boards && f.board == Some(b) :: Some(b);
    if found == {} then {None} else found
  }

  /** `files f LEFT JOIN boards b ON b.id = f.board_id`, where the file or the board has expired. */
  function FilesJoined(t: Tables, now: int, days: int): set<(nat, Option<nat>)> {
    set f, b | f in t.files && b in BoardsJoined(t, t.files[f])
               && (Expired(t.files[f].deletedAt, now, days)
                   || (b.Some? && b.value in t.boards && Expired(t.boards[b.value].deletedAt, now, days))) :: (f, b)
  }

  /** A join that pairs every row with exactly one other has as many rows. */
  lemma {:induction false} PairedOnce<A, B>(pairs: set<(A, B)>, firsts: set<A>)
    requires forall p :: p in pairs ==> p.0 in firsts
    requires forall a :: a in firsts ==> exists p :: p in pairs && p.0 == a
    requires forall p, q :: p in pairs && q in pairs && p.0 == q.0 ==> p == q
    ensures |pairs| == |firsts|
  {
    if firsts == {} {
      assert pairs == {};
    } else {
      var a :| a in firsts;
      var p :| p in pairs && p.0 == a;
      forall c | c in firsts - {a} ensures exists q :: q in pairs - {p} && q.0 == c {
        var q :| q in pairs && q.0 == c;
        assert q in pairs - {p};
      }
      PairedOnce(pairs - {p}, firsts - {a});
    }
  }

  /** A file has at most one board, so the left join with OR counts it once, whichever way it goes. */
  lemma FilesCountedOnce(t: Tables, now: int, days: int)
    ensures |FilesJoined(t, now, days)| == |GoingFiles(t, now, days)|
  {
    hide Expired;
    forall f | f in GoingFiles(t, now, days) ensures exists p :: p in FilesJoined(t, now, days) && p.0 == f {
      var board := t.files[f].board;
      if board.Some? && board.value in t.boards {
        assert board in BoardsJoined(t, t.files[f]);
        assert (f, board) in FilesJoined(t, now, days);
      } else {
        assert None in BoardsJoined(t, t.files[f]);
        assert (f, None) in FilesJoined(t, now, days);
      }
    }
    forall p, q | p in FilesJoined(t, now, days) && q in FilesJoined(t, now, days) && p.0 == q.0 ensures p == q {
      assert p.1 in BoardsJoined(t, t.files[p.0]) && q.1 in BoardsJoined(t, t.files[p.0]);
    }
    PairedOnce(FilesJoined(t, now, days), GoingFiles(t, now, days));
  }

  lemma UpdatesCountedOnce(t: Tables, now: int, days: int)
    ensures |UpdatesJoined(t, now, days)| == |GoingUpdates(t, now, days)|
  {
    hide Expired;
    forall u | u in GoingUpdates(t, now, days) ensures exists p :: p in UpdatesJoined(t, now, days) && p.0 == u {
      assert (u, t.updates[u].board) in UpdatesJoined(t, now, days);
    }
    PairedOnce(UpdatesJoined(t, now, days), GoingUpdates(t, now, days));
  }

  lemma SnapshotsCountedOnce(t: Tables, now: int, days: int)
    ensures |SnapshotsJoined(t, now, days)| == |GoingSnapshots(t, now, days)|
  {
    hide Expired;
    forall s | s in GoingSnapshots(t, now, days) ensures exists p :: p in SnapshotsJoined(t, now, days) && p.0 == s {
      assert (s, t.snapshots[s].board) in SnapshotsJoined(t, now, days);
    }
    PairedOnce(SnapshotsJoined(t, now, days), GoingSnapshots(t, now, days));
  }

  // ----- the two deletes -----

  /** Files a foreign key without a delete rule still points at once `jobs` are what remains. */
  predicate Pinned(files: set<nat>, jobs: map<nat, Job>, templateFiles: set<nat>) {
    files * templateFiles != {}
    || exists j :: j in jobs && jobs[j].file.Some? && jobs[j].file.value in files
  }

  function OwnExpired(t: Tables, now: int, days: int): set<nat> {
    set f | f in t.files && Expired(t.files[f].deletedAt, now, days)
  }

  /** Files whose board goes. */
  function Cascaded(t: Tables, now: int, days: int): set<nat> {
    set f | f in t.files && t.files[f].board.Some? && BoardGoes(t, t.files[f].board.value, now, days)
  }

  function VersionsLeft(t: Tables, now: int, days: int): map<nat, Version> {
    map v | v in t.versions && !BoardGoes(t, t.versions[v].board, now, days) :: t.versions[v]
  }

  /** Snapshots that a version which stays still points at. */
  predicate Held(snapshots: set<nat>, versions: map<nat, Version>) {
    exists v :: v in versions && versions[v].snapshot in snapshots
  }

  function JobsLeft(t: Tables, now: int, days: int): map<nat, Job> {
    map j | j in t.jobs && !BoardGoes(t, t.jobs[j].board, now, days) :: t.jobs[j]
  }

  /** `DELETE FROM files` by their own date; None when something still points at one of them. */
  function FilesDeleted(t: Tables, now: int, days: int): Option<Tables> {
    var gone := OwnExpired(t, now, days);
    if Pinned(gone, t.jobs, t.templateFiles) then None else Some(t.(files := t.files - gone))
  }

  /** `DELETE FROM boards`, with its cascades into files, snapshots, updates, export jobs and versions. */
  function BoardsDeleted(t: Tables, now: int, days: int): Option<Tables> {
    var files, jobs := Cascaded(t, now, days), JobsLeft(t, now, days);
    var snapshots, versions := GoingSnapshots(t, now, days), VersionsLeft(t, now, days);
    if Pinned(files, jobs, t.templateFiles) || Held(snapshots, versions) then None
    else Some(Tables(t.boards - GoingBoards(t, now, days), t.files - files, t.snapshots - snapshots,
                     t.updates - GoingUpdates(t, now, days), jobs, versions, t.templateFiles))
  }

  /**
   * No template shows a going file; no export job holds one, save a job whose board goes and whose file
   * has not expired itself; and no version of a board that stays holds a going snapshot.
   */
  predicate NothingPinned(t: Tables, now: int, days: int) {
    && (forall f :: f in GoingFiles(t, now, days) ==> f !in t.templateFiles)
    && (forall j :: j in t.jobs && t.jobs[j].file.Some? && t.jobs[j].file.value in GoingFiles(t, now, days) ==>
         BoardGoes(t, t.jobs[j].board, now, days) && t.jobs[j].file.value !in OwnExpired(t, now, days))
    && (forall v :: v in t.versions && t.versions[v].snapshot in GoingSnapshots(t, now, days) ==>
          BoardGoes(t, t.versions[v].board, now, days))
  }

  lemma FilesFreeIff(t: Tables, now: int, days: int)
    ensures var own := OwnExpired(t, now, days);
            var mid := t.(files := t.files - own);
            (!Pinned(own, t.jobs, t.templateFiles)
             && !Pinned(Cascaded(mid, now, days), JobsLeft(mid, now, days), t.templateFiles))
            <==> (forall f :: f in GoingFiles(t, now, days) ==> f !in t.templateFiles)
                 && (forall j :: j in t.jobs && t.jobs[j].file.Some?
                                 && t.jobs[j].file.value in GoingFiles(t, now, days)
                                 ==> BoardGoes(t, t.jobs[j].board, now, days) && t.jobs[j].file.value !in own)
  {
    hide Expired;
    var own := OwnExpired(t, now, days);
    var mid := t.(files := t.files - own);
    var files, jobs := Cascaded(mid, now, days), JobsLeft(mid, now, days);
    assert GoingFiles(t, now, days) == own + files;
    NoneShared(own, t.templateFiles);
    NoneShared(files, t.templateFiles);
    if !Pinned(own, t.jobs, t.templateFiles) && !Pinned(files, jobs, t.templateFiles) {
      forall j | j in t.jobs && t.jobs[j].file.Some? && t.jobs[j].file.value in own + files
        ensures BoardGoes(t, t.jobs[j].board, now, days) && t.jobs[j].file.value !in own
      {
        assert j in jobs <==> !BoardGoes(t, t.jobs[j].board, now, days);
      }
    }
  }

  lemma NoneShared(a: set<nat>, b: set<nat>)
    ensures a * b == {} <==> forall x :: x in a ==> x !in b
  {
    assert forall x :: x in a && x in b ==> x in a * b;
  }

  lemma SnapshotsFreeIff(t: Tables, now: int, days: int)
    ensures !Held(GoingSnapshots(t, now, days), VersionsLeft(t, now, days))
            <==> forall v :: v in t.versions && t.versions[v].snapshot in GoingSnapshots(t, now, days) ==>
                   BoardGoes(t, t.versions[v].board, now, days)
  {
    hide BoardGoes;
    forall v | v in t.versions
      ensures v in VersionsLeft(t, now, days) <==> !BoardGoes(t, t.versions[v].board, now, days) {}
  }

  lemma PurgeRunsIffNothingPinned(t: Tables, now: int, days: int)
    ensures NothingPinned(t, now, days)
            <==> FilesDeleted(t, now, days).Some? && BoardsDeleted(FilesDeleted(t, now, days).value, now, days).Some?
  {
    hide Pinned, Held, Expired, GoingFiles;
    FilesFreeIff(t, now, days);
    SnapshotsFreeIff(t, now, days);
    var mid := t.(files := t.files - OwnExpired(t, now, days));
    assert GoingSnapshots(mid, now, days) == GoingSnapshots(t, now, days);
    assert VersionsLeft(mid, now, days) == VersionsLeft(t, now, days);
  }

  class Database {
    var t: Tables

    /** The blast radius, before anything is deleted. */
    method CountPurgeable(now: int, days: int) returns (c: Counts)
      ensures c == Counts(|GoingBoards(t, now, days)|, |GoingUpdates(t, now, days)|,
                          |GoingSnapshots(t, now, days)|, |GoingFiles(t, now, days)|)
      ensures c.boards == |set b | b in t.boards && t.boards[b].deletedAt.Some?
                                   && t.boards[b].deletedAt.value + days * 86_400_000 < now|
      ensures c.files == |set f | f in t.files &&
                                  ((t.files[f].deletedAt.Some?
                                    && t.files[f].deletedAt.value + days * 86_400_000 < now)
                                   || (t.files[f].board.Some? && t.files[f].board.value in t.boards
                                       && t.boards[t.files[f].board.value].deletedAt.Some?
                                       && t.boards[t.files[f].board.value].deletedAt.value + days * 86_400_000
                                          < now))|
      ensures c.boardSnapshots == |set s | s in t.snapshots && t.snapshots[s].board in t.boards
                                           && t.boards[t.snapshots[s].board].deletedAt.Some?
                                           && t.boards[t.snapshots[s].board].deletedAt.value + days * 86_400_000
                                              < now|
      ensures c.boardUpdates == |set u | u in t.updates && t.updates[u].board in t.boards
                                         && t.boards[t.updates[u].board].deletedAt.Some?
                                         && t.boards[t.updates[u].board].deletedAt.value + days * 86_400_000
                                            < now|
    {
      GoingByDates(t, now, days);
      UpdatesCountedOnce(t, now, days);
      SnapshotsCountedOnce(t, now, days);
      FilesCountedOnce(t, now, days);
      c := Counts(|set b | b in t.boards && Expired(t.boards[b].deletedAt, now, days)|, |UpdatesJoined(t, now, days)|,
                  |SnapshotsJoined(t, now, days)|, |FilesJoined(t, now, days)|);
      assert GoingBoards(t, now, days) == set b | b in t.boards && Expired(t.boards[b].deletedAt, now, days);
    }

    /**
     * One transaction: all of it or none. What goes is what was counted, row for row, and no
     * row is left whose board is gone.
     */
    method Purge(now: int, days: int) returns (ok: bool, before: Counts)
      requires References(t)
      modifies this
      ensures References(t)
      ensures ok <==> NothingPinned(old(t), now, days)
      ensures !ok ==> t == old(t)
      ensures ok ==> RowsOfPurge(old(t), t, now, days) && LeftByDates(old(t), t, now, days)
      ensures ok ==> before == Counts(|old(t).boards| - |t.boards|, |old(t).updates| - |t.updates|,
                                      |old(t).snapshots| - |t.snapshots|, |old(t).files| - |t.files|)
    {
      hide *;
      PurgeRunsIffNothingPinned(t, now, days);
      before := CountPurgeable(now, days);
      var afterFiles := FilesDeleted(t, now, days);
      if afterFiles == None {
        return false, before;
      }
      var afterBoards := BoardsDeleted(afterFiles.value, now, days);
      if afterBoards == None {
        return false, before;
      }
      CascadeCompletes(t, afterFiles.value, afterBoards.value, now, days);
      RowsCounted(t, afterBoards.value, now, days);
      RowsLeftByDates(t, afterBoards.value, now, days);
      t := afterBoards.value;
      ok := true;
    }
  }

  /** The tables after a purge, by what of each remains. */
  ghost predicate RowsOfPurge(s: Tables, t: Tables, now: int, days: int) {
    && t.boards == s.boards - GoingBoards(s, now, days)
    && t.files == s.files - GoingFiles(s, now, days)
    && t.snapshots == s.snapshots - GoingSnapshots(s, now, days)
    && t.updates == s.updates - GoingUpdates(s, now, days)
    && t.jobs.Keys == (set j | j in s.jobs && !BoardGoes(s, s.jobs[j].board, now, days))
    && (forall j :: j in t.jobs ==> t.jobs[j] == s.jobs[j])
    && t.versions.Keys == (set v | v in s.versions && !BoardGoes(s, s.versions[v].board, now, days))
    && (forall v :: v in t.versions ==> t.versions[v] == s.versions[v])
    && t.templateFiles == s.templateFiles
  }

  lemma Removed<V>(m: map<nat, V>, gone: set<nat>)
    requires gone <= m.Keys
    ensures |m - gone| == |m| - |gone|
  {}

  /** Nothing a purge at that time would do takes the board: it has no date, or one not long enough ago. */
  ghost predicate BoardStays(t: Tables, board: nat, now: int, days: int) {
    board in t.boards && t.boards[board].deletedAt.Some? ==>
      t.boards[board].deletedAt.value + days * 86_400_000 >= now
  }

  /** Which rows a purge left, and that it left them as they were, told by dates alone. */
  ghost predicate LeftByDates(s: Tables, t: Tables, now: int, days: int) {
    && (forall b :: b in t.boards <==> b in s.boards && BoardStays(s, b, now, days))
    && (forall f :: f in t.files <==>
          f in s.files
          && (s.files[f].deletedAt.Some? ==> s.files[f].deletedAt.value + days * 86_400_000 >= now)
          && (s.files[f].board.Some? ==> BoardStays(s, s.files[f].board.value, now, days)))
    && (forall r :: r in t.snapshots <==> r in s.snapshots && BoardStays(s, s.snapshots[r].board, now, days))
    && (forall u :: u in t.updates <==> u in s.updates && BoardStays(s, s.updates[u].board, now, days))
    && (forall j :: j in t.jobs <==> j in s.jobs && BoardStays(s, s.jobs[j].board, now, days))
    && (forall v :: v in t.versions <==> v in s.versions && BoardStays(s, s.versions[v].board, now, days))
    && (forall b :: b in t.boards ==> t.boards[b] == s.boards[b])
    && (forall f :: f in t.files ==> t.files[f] == s.files[f])
    && (forall r :: r in t.snapshots ==> t.snapshots[r] == s.snapshots[r])
    && (forall u :: u in t.updates ==> t.updates[u] == s.updates[u])
  }

  lemma RowsLeftByDates(s: Tables, t: Tables, now: int, days: int)
    requires RowsOfPurge(s, t, now, days)
    ensures LeftByDates(s, t, now, days)
  {
    GoingByDates(s, now, days);
    hide GoingBoards, GoingFiles, GoingSnapshots, GoingUpdates;
  }

  /** No purge ever takes a row that has no date, on itself or on its board. */
  lemma UndatedStays(s: Tables, mid: Tables, t: Tables, now: int, days: int, row: nat)
    requires FilesDeleted(s, now, days) == Some(mid) && BoardsDeleted(mid, now, days) == Some(t)
    ensures row in s.boards && s.boards[row].deletedAt.None? ==> row in t.boards
    ensures row in s.files && s.files[row].deletedAt.None? && Undated(s, s.files[row].board) ==> row in t.files
    ensures row in s.snapshots && Undated(s, Some(s.snapshots[row].board)) ==> row in t.snapshots
    ensures row in s.updates && Undated(s, Some(s.updates[row].board)) ==> row in t.updates
  {
    hide FilesDeleted, BoardsDeleted, RowsOfPurge;
    RowsGoExactly(s, mid, t, now, days);
    RowsLeftByDates(s, t, now, days);
    LeftUndated(s, t, now, days, row);
  }

  lemma LeftUndated(s: Tables, t: Tables, now: int, days: int, row: nat)
    requires LeftByDates(s, t, now, days)
    ensures row in s.boards && s.boards[row].deletedAt.None? ==> row in t.boards
    ensures row in s.files && s.files[row].deletedAt.None? && Undated(s, s.files[row].board) ==> row in t.files
    ensures row in s.snapshots && Undated(s, Some(s.snapshots[row].board)) ==> row in t.snapshots
    ensures row in s.updates && Undated(s, Some(s.updates[row].board)) ==> row in t.updates
  {}

  /** No board, or one without a date. */
  ghost predicate Undated(t: Tables, board: Option<nat>) {
    board.Some? && board.value in t.boards ==> t.boards[board.value].deletedAt.None?
  }

  lemma RowsCounted(s: Tables, t: Tables, now: int, days: int)
    requires RowsOfPurge(s, t, now, days)
    ensures |s.boards| - |t.boards| == |GoingBoards(s, now, days)|
    ensures |s.updates| - |t.updates| == |GoingUpdates(s, now, days)|
    ensures |s.snapshots| - |t.snapshots| == |GoingSnapshots(s, now, days)|
    ensures |s.files| - |t.files| == |GoingFiles(s, now, days)|
  {
    GoingAreRows(s, now, days);
    hide GoingBoards, GoingUpdates, GoingSnapshots, GoingFiles, BoardGoes;
    Removed(s.boards, GoingBoards(s, now, days));
    Removed(s.updates, GoingUpdates(s, now, days));
    Removed(s.snapshots, GoingSnapshots(s, now, days));
    Removed(s.files, GoingFiles(s, now, days));
  }

  lemma GoingAreRows(s: Tables, now: int, days: int)
    ensures GoingBoards(s, now, days) <= s.boards.Keys && GoingUpdates(s, now, days) <= s.updates.Keys
    ensures GoingSnapshots(s, now, days) <= s.snapshots.Keys && GoingFiles(s, now, days) <= s.files.Keys
  {}

  lemma RowsGoExactly(s: Tables, mid: Tables, t: Tables, now: int, days: int)
    requires FilesDeleted(s, now, days) == Some(mid) && BoardsDeleted(mid, now, days) == Some(t)
    ensures RowsOfPurge(s, t, now, days)
  {
    hide Expired, Pinned, Held;
    assert t.files == s.files - GoingFiles(s, now, days);
  }

  lemma ReferencesKept(s: Tables, t: Tables, now: int, days: int)
    requires References(s) && RowsOfPurge(s, t, now, days)
    requires forall f :: f in s.templateFiles ==> f !in GoingFiles(s, now, days)
    requires forall j :: j in t.jobs && t.jobs[j].file.Some? ==> t.jobs[j].file.value !in GoingFiles(s, now, days)
    requires forall v :: v in t.versions ==> t.versions[v].snapshot !in GoingSnapshots(s, now, days)
    ensures References(t)
  {
    hide Expired;
  }

  /** Both deletes done, nothing that stays points at anything that went. */
  lemma CascadeCompletes(s: Tables, mid: Tables, t: Tables, now: int, days: int)
    requires References(s)
    requires FilesDeleted(s, now, days) == Some(mid) && BoardsDeleted(mid, now, days) == Some(t)
    ensures RowsOfPurge(s, t, now, days) && References(t)
  {
    hide References, GoingFiles, GoingSnapshots, FilesDeleted, BoardsDeleted, BoardGoes;
    PurgeRunsIffNothingPinned(s, now, days);
    RowsGoExactly(s, mid, t, now, days);
    ReferencesKept(s, t, now, days);
  }

  // ----- with the sweep -----

  /** The storage keys the sweep reads: trashed rows are rows. */
  function AssetRefs(t: Tables): set<string> {
    set f | f in t.files :: t.files[f].storageKey
  }

  function SnapshotRefs(t: Tables): set<string> {
    set s | s in t.snapshots :: t.snapshots[s].storageKey
  }

  ghost predicate Aged(v: View, key: string) {
    key in v.objects && v.objects[key].modified.Some?
    && !(AgeHours(v.now, v.objects[key].modified.value) < v.minAgeHours)
  }

  /** A file row that names the blob outlives the purge. */
  ghost predicate SurvivingFile(s: Tables, key: string, now: int, days: int) {
    exists f :: f in s.files && s.files[f].storageKey == key && !FileGoes(s, s.files[f], now, days)
  }

  ghost predicate SurvivingSnapshot(s: Tables, key: string, now: int, days: int) {
    exists r :: r in s.snapshots && s.snapshots[r].storageKey == key
                && !BoardGoes(s, s.snapshots[r].board, now, days)
  }

  /** A blob the purge orphans: rows named it, and every one of them went. */
  ghost predicate OrphanedAsset(s: Tables, key: string, now: int, days: int) {
    key in AssetRefs(s) && !SurvivingFile(s, key, now, days)
  }

  ghost predicate OrphanedSnapshot(s: Tables, key: string, now: int, days: int) {
    key in SnapshotRefs(s) && !SurvivingSnapshot(s, key, now, days)
  }

  lemma AssetRefsLeft(s: Tables, t: Tables, now: int, days: int)
    requires RowsOfPurge(s, t, now, days)
    ensures AssetRefs(t) <= AssetRefs(s)
    ensures forall k :: k in AssetRefs(t) <==> SurvivingFile(s, k, now, days)
    ensures forall k :: k in AssetRefs(s) && k !in AssetRefs(t) <==> OrphanedAsset(s, k, now, days)
  {
    hide FileGoes;
    forall k ensures k in AssetRefs(t) <==> SurvivingFile(s, k, now, days) {
      if k in AssetRefs(t) {
        var f :| f in t.files && t.files[f].storageKey == k;
        assert f in s.files && f !in GoingFiles(s, now, days);
      }
      if SurvivingFile(s, k, now, days) {
        var f :| f in s.files && s.files[f].storageKey == k && !FileGoes(s, s.files[f], now, days);
        assert f in t.files;
      }
    }
  }

  lemma SnapshotRefsLeft(s: Tables, t: Tables, now: int, days: int)
    requires RowsOfPurge(s, t, now, days)
    ensures SnapshotRefs(t) <= SnapshotRefs(s)
    ensures forall k :: k in SnapshotRefs(t) <==> SurvivingSnapshot(s, k, now, days)
    ensures forall k :: k in SnapshotRefs(s) && k !in SnapshotRefs(t) <==> OrphanedSnapshot(s, k, now, days)
  {
    hide BoardGoes;
    forall k ensures k in SnapshotRefs(t) <==> SurvivingSnapshot(s, k, now, days) {
      if k in SnapshotRefs(t) {
        var r :| r in t.snapshots && t.snapshots[r].storageKey == k;
        assert r in s.snapshots && r !in GoingSnapshots(s, now, days);
      }
      if SurvivingSnapshot(s, k, now, days) {
        var r :| r in s.snapshots && s.snapshots[r].storageKey == k && !BoardGoes(s, s.snapshots[r].board, now, days);
        assert r in t.snapshots;
      }
    }
  }

  /** Purge, then sweep: an aged blob stays exactly while some row naming it survived the purge. */
  lemma PurgeThenSweepAssets(s: Tables, t: Tables, now: int, days: int, v: View, key: string)
    requires RowsOfPurge(s, t, now, days) && v.refs == AssetRefs(t) && Aged(v, key)
    ensures key in Swept(v) <==> SurvivingFile(s, key, now, days)
  {
    hide RowsOfPurge, SurvivingFile, AssetRefs;
    AssetRefsLeft(s, t, now, days);
    SweepLeaves(v, key);
  }

  lemma PurgeThenSweepSnapshots(s: Tables, t: Tables, now: int, days: int, v: View, key: string)
    requires RowsOfPurge(s, t, now, days) && v.refs == SnapshotRefs(t) && Aged(v, key)
    ensures key in Swept(v) <==> SurvivingSnapshot(s, key, now, days)
  {
    hide RowsOfPurge, SurvivingSnapshot, SnapshotRefs;
    SnapshotRefsLeft(s, t, now, days);
    SweepLeaves(v, key);
  }

  /**
   * A sweep that still sees the rows `before` takes none of their blobs; and it leaves the bucket a sweep
   * of the rows `after` would leave exactly when no aged blob lost its last row in between.
   */
  lemma SweepsAgreeIff(before: set<string>, after: set<string>, objects: Objects, clock: int, minAgeHours: real)
    requires after <= before
    ensures var first, second := View(objects, before, clock, minAgeHours), View(objects, after, clock, minAgeHours);
            (forall k :: k in objects && k in before ==> k in Swept(first)) &&
            (Swept(first) == Swept(second) <==> forall k :: Aged(second, k) ==> !(k in before && k !in after))
  {
    var first, second := View(objects, before, clock, minAgeHours), View(objects, after, clock, minAgeHours);
    forall k | k in objects ensures k in Swept(first) <==> k in before || !Aged(second, k) { SweepLeaves(first, k); }
    forall k | k in objects ensures k in Swept(second) <==> k in after || !Aged(second, k) { SweepLeaves(second, k); }
    hide Swept, Aged;
    if Swept(first) == Swept(second) {
      forall k | Aged(second, k) ensures !(k in before && k !in after) { AgedIsThere(second, k); }
    }
    if forall k :: Aged(second, k) ==> !(k in before && k !in after) { SameKeysSameBucket(first, second); }
  }

  lemma AgedIsThere(v: View, k: string)
    requires Aged(v, k)
    ensures k in v.objects
  {}

  /**
   * Sweep, then purge: in either bucket the sweep still sees a row and takes none of the blobs the purge
   * will orphan. The two orders leave the same bucket exactly when the purge orphans no aged blob in it.
   */
  lemma OrderMatters(s: Tables, t: Tables, now: int, days: int,
                     assets: Objects, snapshots: Objects, clock: int, minAgeHours: real)
    requires RowsOfPurge(s, t, now, days)
    ensures var first, after := View(assets, AssetRefs(s), clock, minAgeHours),
                                View(assets, AssetRefs(t), clock, minAgeHours);
            (forall k :: k in assets && OrphanedAsset(s, k, now, days) ==> k in Swept(first)) &&
            (Swept(first) == Swept(after) <==> forall k :: Aged(after, k) ==> !OrphanedAsset(s, k, now, days))
    ensures var first, after := View(snapshots, SnapshotRefs(s), clock, minAgeHours),
                                View(snapshots, SnapshotRefs(t), clock, minAgeHours);
            (forall k :: k in snapshots && OrphanedSnapshot(s, k, now, days) ==> k in Swept(first)) &&
            (Swept(first) == Swept(after) <==> forall k :: Aged(after, k) ==> !OrphanedSnapshot(s, k, now, days))
  {
    hide Swept, Aged, RowsOfPurge, OrphanedAsset, OrphanedSnapshot, AssetRefs, SnapshotRefs;
    AssetRefsLeft(s, t, now, days);
    SnapshotRefsLeft(s, t, now, days);
    SweepsAgreeIff(AssetRefs(s), AssetRefs(t), assets, clock, minAgeHours);
    SweepsAgreeIff(SnapshotRefs(s), SnapshotRefs(t), snapshots, clock, minAgeHours);
  }

  lemma SameKeysSameBucket(a: View, b: View)
    requires a.objects == b.objects
    requires forall k :: k in a.objects ==> (k in Swept(a) <==> k in Swept(b))
    ensures Swept(a) == Swept(b)
  {
    assert Swept(a).Keys == Swept(b).Keys;
  }
}
