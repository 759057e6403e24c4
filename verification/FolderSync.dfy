/**
  The folder loop of `sync_account`, with the checkpoint rows it keeps in
  `folder_sync_state`: which folders a pass fetches, what it writes, and when a
  folder is paused.  One account; the network and the database are oracles.
 */
module FolderSync {
  import opened Prelude

  /** A row of `folder_sync_state`, without its timestamp. */
  datatype Row = Row(
    uidvalidity: Option<int>,
    lastUid: int,
    modseq: Option<int>,
    phase: string,
    lastError: Option<string>,
    retryCount: int,
    isPaused: int)

  datatype Folder = Folder(path: string, specialUse: Option<string>)

  /** What fetching a folder gives. */
  datatype Fetch =
    | Fetched(messages: nat, uids: seq<nat>, uidvalidity: int, modseq: Option<int>)
    | Failed(error: string)

  /** All that can happen to one folder in one pass: its fetch, and which database calls succeed. */
  datatype Fate = Fate(
    fetch: Fetch,
    phaseOk: bool,
    upsertOk: bool,
    seedOk: bool,
    recordOk: bool,
    getOk: bool,
    pauseOk: bool)

  const RESUME_RETRY_THRESHOLD := 3

  type Rows = map<string, Row>

  function Lookup(rows: Rows, path: string): Option<Row> {
    if path in rows then Some(rows[path]) else None
  }

  predicate IsPaused(row: Option<Row>) { row.Some? && row.value.isPaused == 1 }

  /** The folders the lookup reports; nothing when it fails or there is no account row. */
  function PausedFolders(rows: Rows, checkpoints: bool, lookupOk: bool): set<string> {
    if checkpoints && lookupOk then set p | p in rows && IsPaused(Some(rows[p])) else {}
  }

  predicate Special(f: Folder) {
    f.specialUse == Some("\\Junk") || f.specialUse == Some("\\Trash") || f.specialUse == Some("\\Drafts")
  }

  predicate Skips(f: Folder, paused: set<string>) { Special(f) || f.path in paused }

  /** The folders a pass fetches, in order. */
  function Visited(folders: seq<Folder>, paused: set<string>): seq<string> {
    if folders == [] then [] else
    var f := folders[|folders| - 1];
    Visited(folders[..|folders| - 1], paused) + if Skips(f, paused) then [] else [f.path]
  }

  // ----- one folder -----

  function MaxUid(uids: seq<nat>): nat {
    if uids == [] then 0 else
    var m := MaxUid(uids[..|uids| - 1]);
    if m < uids[|uids| - 1] then uids[|uids| - 1] else m
  }

  /** The row a successful fetch writes; leaving out the retry count and the pause flag writes zeros. */
  function DoneRow(fetch: Fetch): Row
    requires fetch.Fetched?
  {
    Row(Some(fetch.uidvalidity), MaxUid(fetch.uids), fetch.modseq, "done", None, 0, 0)
  }

  /** The row a failed fetch seeds before it records the error. */
  const SEED_ROW := Row(None, 0, None, "backfill", None, 0, 0)

  function WithPhase(row: Option<Row>, phase: string): Option<Row> {
    if row.Some? then Some(row.value.(phase := phase)) else row
  }

  function WithError(row: Option<Row>, error: string): Option<Row> {
    if row.Some? then Some(row.value.(lastError := Some(error), retryCount := row.value.retryCount + 1)) else row
  }

  /** The row of a fetched folder after the pass. */
  function AfterFetch(row: Option<Row>, fate: Fate): Option<Row> {
    var r1 := if fate.phaseOk then WithPhase(row, "backfill") else row;
    match fate.fetch
    case Fetched(_, _, _, _) => if fate.upsertOk then Some(DoneRow(fate.fetch)) else r1
    case Failed(error) =>
      var r2 := if fate.seedOk then Some(SEED_ROW) else r1;
      var r3 := if fate.recordOk then WithError(r2, error) else r2;
      if fate.getOk && r3.Some? && r3.value.retryCount > RESUME_RETRY_THRESHOLD && fate.pauseOk
      then Some(r3.value.(isPaused := 1)) else r3
  }

  function Put(rows: Rows, path: string, row: Option<Row>): Rows {
    if row.Some? then rows[path := row.value] else rows - {path}
  }

  // ----- one pass -----

  function AfterPass(rows: Rows, folders: seq<Folder>, paused: set<string>, fate: nat -> Fate,
                     checkpoints: bool): Rows
  {
    if folders == [] then rows else
    var before, f := AfterPass(rows, folders[..|folders| - 1], paused, fate, checkpoints), folders[|folders| - 1];
    if Skips(f, paused) || !checkpoints then before
    else Put(before, f.path, AfterFetch(Lookup(before, f.path), fate(|folders| - 1)))
  }

  /** How many folders were fetched without an error. */
  function Synced(folders: seq<Folder>, paused: set<string>, fate: nat -> Fate): nat {
    if folders == [] then 0 else
    var n := |folders| - 1;
    Synced(folders[..n], paused, fate) + if !Skips(folders[n], paused) && fate(n).fetch.Fetched? then 1 else 0
  }

  /** The messages those fetches gave. */
  function Messages(folders: seq<Folder>, paused: set<string>, fate: nat -> Fate): nat {
    if folders == [] then 0 else
    var n := |folders| - 1;
    var fetch := fate(n).fetch;
    Messages(folders[..n], paused, fate)
    + if !Skips(folders[n], paused) && fetch.Fetched? then fetch.messages else 0
  }

  class Account {
    var rows: Rows

    constructor ()
      ensures rows == map[]
    {
      rows := map[];
    }

    method SetSyncPhase(path: string, phase: string, ok: bool)
      modifies this
      ensures rows == if ok then Put(old(rows), path, WithPhase(Lookup(old(rows), path), phase)) else old(rows)
    {
      if ok && path in rows {
        rows := rows[path := rows[path].(phase := phase)];
      }
    }

    method Upsert(path: string, row: Row, ok: bool)
      modifies this
      ensures rows == if ok then old(rows)[path := row] else old(rows)
    {
      if ok {
        rows := rows[path := row];
      }
    }

    method RecordError(path: string, error: string, ok: bool)
      modifies this
      ensures rows == if ok then Put(old(rows), path, WithError(Lookup(old(rows), path), error)) else old(rows)
    {
      if ok && path in rows {
        var row := rows[path];
        rows := rows[path := row.(lastError := Some(error), retryCount := row.retryCount + 1)];
      }
    }

    /** The error branch: seed a row, record the error, and pause past the threshold. */
    method RecordFailure(path: string, error: string, fate: Fate)
      modifies this
      ensures var r2 := if fate.seedOk then old(rows)[path := SEED_ROW] else old(rows);
              var r3 := if fate.recordOk then Put(r2, path, WithError(Lookup(r2, path), error)) else r2;
              rows == if fate.getOk && path in r3 && r3[path].retryCount > RESUME_RETRY_THRESHOLD && fate.pauseOk
                      then r3[path := r3[path].(isPaused := 1)] else r3
    {
      Upsert(path, Row(None, 0, None, "backfill", None, 0, 0), fate.seedOk);
      RecordError(path, error, fate.recordOk);
      if fate.getOk && path in rows {
        if rows[path].retryCount > RESUME_RETRY_THRESHOLD && fate.pauseOk {
          rows := rows[path := rows[path].(isPaused := 1)];
        }
      }
    }

    /** One folder that is not skipped: mark it, fetch it, and write down how that went. */
    method SyncFolder(path: string, fate: Fate, checkpoints: bool) returns (ok: bool, messageCount: nat)
      modifies this
      ensures rows == if checkpoints then Put(old(rows), path, AfterFetch(Lookup(old(rows), path), fate)) else old(rows)
      ensures ok == fate.fetch.Fetched? && messageCount == if ok then fate.fetch.messages else 0
    {
      if checkpoints {
        SetSyncPhase(path, "backfill", fate.phaseOk);
      }
      match fate.fetch
      case Fetched(messages, uids, uidvalidity, modseq) =>
        ok, messageCount := true, messages;
        if checkpoints {
          Upsert(path, Row(Some(uidvalidity), MaxUid(uids), modseq, "done", None, 0, 0), fate.upsertOk);
        }
      case Failed(error) =>
        ok, messageCount := false, 0;
        if checkpoints {
          RecordFailure(path, error, fate);
        }
    }

    /** The folder loop of one pass. */
    method SyncAccount(folders: seq<Folder>, fate: nat -> Fate, checkpoints: bool, lookupOk: bool)
      returns (fetched: seq<string>, foldersSynced: nat, totalMessages: nat)
      modifies this
      ensures var paused := PausedFolders(old(rows), checkpoints, lookupOk);
              && fetched == Visited(folders, paused)
              && rows == AfterPass(old(rows), folders, paused, fate, checkpoints)
              && foldersSynced == Synced(folders, paused, fate) && totalMessages == Messages(folders, paused, fate)
    {
      hide AfterFetch, Put;
      var paused := PausedFolders(rows, checkpoints, lookupOk);
      fetched, foldersSynced, totalMessages := [], 0, 0;
      for i := 0 to |folders|
        invariant fetched == Visited(folders[..i], paused)
        invariant rows == AfterPass(old(rows), folders[..i], paused, fate, checkpoints)
        invariant foldersSynced == Synced(folders[..i], paused, fate)
        invariant totalMessages == Messages(folders[..i], paused, fate)
      {
        var f := folders[i];
        assert folders[..i + 1][..i] == folders[..i];
        if Special(f) {
          continue;
        }
        if f.path in paused {
          continue;
        }
        fetched := fetched + [f.path];
        var ok, messageCount := SyncFolder(f.path, fate(i), checkpoints);
        if ok {
          foldersSynced := foldersSynced + 1;
          totalMessages := totalMessages + messageCount;
        }
      }
      assert folders[..|folders|] == folders;
    }
  }

  // ----- folders do not disturb each other -----

  predicate DistinctPaths(folders: seq<Folder>) {
    forall i, j :: 0 <= i < j < |folders| ==> folders[i].path != folders[j].path
  }

  lemma {:induction false} VisitedUnskipped(folders: seq<Folder>, paused: set<string>, path: string)
    ensures path in Visited(folders, paused) <==>
              exists i :: 0 <= i < |folders| && folders[i].path == path && !Skips(folders[i], paused)
  {
    hide Skips;
    if folders == [] {
    } else {
      var n := |folders| - 1;
      VisitedUnskipped(folders[..n], paused, path);
      if i :| 0 <= i < |folders| && folders[i].path == path && !Skips(folders[i], paused) {
        assert i < n ==> folders[..n][i] == folders[i];
      }
    }
  }

  /** What is fetched: the folders that are not paused and are neither junk, trash nor drafts. */
  lemma VisitedIff(folders: seq<Folder>, paused: set<string>, path: string)
    ensures path in Visited(folders, paused) <==>
              && path !in paused
              && exists i :: 0 <= i < |folders| && folders[i].path == path
                             && folders[i].specialUse !in [Some("\\Junk"), Some("\\Trash"), Some("\\Drafts")]
  {
    hide Special, Visited;
    VisitedUnskipped(folders, paused, path);
    forall i | 0 <= i < |folders|
      ensures Special(folders[i])
         <==> folders[i].specialUse in [Some("\\Junk"), Some("\\Trash"), Some("\\Drafts")]
    {
      SpecialMeans(folders[i]);
    }
  }

  lemma SpecialMeans(f: Folder)
    ensures Special(f) <==> f.specialUse in [Some("\\Junk"), Some("\\Trash"), Some("\\Drafts")]
  {
  }

  /** The row of one folder after a pass, from its own row and the outcomes of its own places in the list. */
  function OwnRow(row: Option<Row>, folders: seq<Folder>, paused: set<string>, fate: nat -> Fate,
                  path: string): Option<Row>
  {
    if folders == [] then row else
    var n := |folders| - 1;
    var before := OwnRow(row, folders[..n], paused, fate, path);
    if folders[n].path == path && !Skips(folders[n], paused) then AfterFetch(before, fate(n)) else before
  }

  /**
    Isolation: after a pass the row of every folder depends on its own row before and,
    if it was fetched, on its own outcomes, and on nothing else.
   */
  lemma {:induction false} FoldersAreIsolated(rows: Rows, folders: seq<Folder>, paused: set<string>,
                                              fate: nat -> Fate, checkpoints: bool, path: string)
    ensures Lookup(AfterPass(rows, folders, paused, fate, checkpoints), path)
         == if checkpoints then OwnRow(Lookup(rows, path), folders, paused, fate, path) else Lookup(rows, path)
  {
    hide AfterFetch;
    if folders == [] {
    } else {
      FoldersAreIsolated(rows, folders[..|folders| - 1], paused, fate, checkpoints, path);
    }
  }

  /** A folder that is not fetched keeps its row. */
  lemma {:induction false} NotVisitedKeepsRow(row: Option<Row>, folders: seq<Folder>, paused: set<string>,
                                              fate: nat -> Fate, path: string)
    requires path !in Visited(folders, paused)
    ensures OwnRow(row, folders, paused, fate, path) == row
  {
    if folders == [] {
    } else {
      NotVisitedKeepsRow(row, folders[..|folders| - 1], paused, fate, path);
    }
  }

  /** With distinct paths the `i`-th folder is fetched once at most, and its row is what that fetch writes. */
  lemma {:induction false} FetchedOnce(row: Option<Row>, folders: seq<Folder>, paused: set<string>,
                                       fate: nat -> Fate, i: nat)
    requires DistinctPaths(folders) && i < |folders|
    ensures OwnRow(row, folders, paused, fate, folders[i].path)
         == if Skips(folders[i], paused) then row else AfterFetch(row, fate(i))
  {
    hide AfterFetch, Skips;
    var n := |folders| - 1;
    if i < n {
      FetchedOnce(row, folders[..n], paused, fate, i);
    } else {
      VisitedUnskipped(folders[..n], paused, folders[n].path);
      NotVisitedKeepsRow(row, folders[..n], paused, fate, folders[n].path);
    }
  }

  /** Folders are fetched in the order of the list. */
  lemma {:induction false} VisitedInOrder(folders: seq<Folder>, paused: set<string>, i: nat, j: nat)
    requires i < j < |folders| && !Skips(folders[i], paused) && !Skips(folders[j], paused)
    ensures exists a, b ::
              0 <= a < b < |Visited(folders, paused)|
              && Visited(folders, paused)[a] == folders[i].path && Visited(folders, paused)[b] == folders[j].path
  {
    hide Skips;
    var n := |folders| - 1;
    var before, all := Visited(folders[..n], paused), Visited(folders, paused);
    if j < n {
      VisitedInOrder(folders[..n], paused, i, j);
      var a, b :| 0 <= a < b < |before| && before[a] == folders[i].path && before[b] == folders[j].path;
      assert all[a] == before[a] && all[b] == before[b];
    } else {
      var a := VisitedAt(folders[..n], paused, i);
      assert all[a] == before[a] && all[|before|] == folders[n].path;
    }
  }

  lemma {:induction false} VisitedAt(folders: seq<Folder>, paused: set<string>, i: nat) returns (a: nat)
    requires i < |folders| && !Skips(folders[i], paused)
    ensures a < |Visited(folders, paused)| && Visited(folders, paused)[a] == folders[i].path
  {
    hide Skips;
    var n := |folders| - 1;
    if i == n {
      a := |Visited(folders[..n], paused)|;
    } else {
      a := VisitedAt(folders[..n], paused, i);
    }
  }

  /** The places of the list that are fetched without an error. */
  function FetchedPlaces(folders: seq<Folder>, paused: set<string>, fate: nat -> Fate): set<nat> {
    set i: nat | i < |folders| && folders[i].path !in paused && fate(i).fetch.Fetched?
                 && folders[i].specialUse !in [Some("\\Junk"), Some("\\Trash"), Some("\\Drafts")]
  }

  function Places(n: nat): seq<nat> { if n == 0 then [] else Places(n - 1) + [n - 1] }

  lemma {:induction false} PlacesBelow(n: nat)
    ensures forall i :: i in Places(n) ==> i < n
  {
    if n == 0 {
    } else {
      PlacesBelow(n - 1);
    }
  }

  lemma OneMorePlace(folders: seq<Folder>, paused: set<string>, fate: nat -> Fate)
    requires folders != []
    ensures var n := |folders| - 1;
            FetchedPlaces(folders, paused, fate)
            == FetchedPlaces(folders[..n], paused, fate)
               + if !Skips(folders[n], paused) && fate(n).fetch.Fetched? then {n} else {}
  {
    var n := |folders| - 1;
    var places, before := FetchedPlaces(folders, paused, fate), FetchedPlaces(folders[..n], paused, fate);
    forall i: nat | i < n ensures i in places <==> i in before {
      assert folders[..n][i] == folders[i];
    }
  }

  /** The two counters: how many places were fetched without an error, and their messages together. */
  lemma {:induction false} CountersMean(folders: seq<Folder>, paused: set<string>, fate: nat -> Fate)
    ensures Synced(folders, paused, fate) == |FetchedPlaces(folders, paused, fate)|
    ensures Messages(folders, paused, fate)
         == Sum(Places(|folders|), MessagesAt(FetchedPlaces(folders, paused, fate), fate))
  {
    hide Skips, Sum, FetchedPlaces;
    if folders == [] {
      NoPlaces(paused, fate);
    } else {
      var n: nat := |folders| - 1;
      var places, before := FetchedPlaces(folders, paused, fate), FetchedPlaces(folders[..n], paused, fate);
      CountersMean(folders[..n], paused, fate);
      OneMorePlace(folders, paused, fate);
      PlacesBefore(folders[..n], paused, fate);
      PlacesBelow(n);
      SameSum(Places(n), MessagesAt(places, fate), MessagesAt(before, fate));
      SumAppend(Places(n), n, MessagesAt(places, fate));
    }
  }

  lemma NoPlaces(paused: set<string>, fate: nat -> Fate)
    ensures FetchedPlaces([], paused, fate) == {}
    ensures Sum(Places(0), MessagesAt({}, fate)) == 0
  {
  }

  lemma PlacesBefore(folders: seq<Folder>, paused: set<string>, fate: nat -> Fate)
    ensures |folders| !in FetchedPlaces(folders, paused, fate)
  {
  }

  function MessagesAt(places: set<nat>, fate: nat -> Fate): nat -> nat {
    (i: nat) => if i in places && fate(i).fetch.Fetched? then fate(i).fetch.messages else 0
  }

  lemma {:induction false} SameSum(xs: seq<nat>, f: nat -> nat, g: nat -> nat)
    requires forall x :: x in xs ==> f(x) == g(x)
    ensures Sum(xs, f) == Sum(xs, g)
  {
    if xs == [] {
    } else {
      SameSum(xs[..|xs| - 1], f, g);
    }
  }

  /** What one fetch leaves of a folder's row, field by field. */
  lemma RowAfterFetch(row: Option<Row>, fate: Fate)
    ensures fate.fetch.Fetched? && fate.upsertOk ==>
              var r := AfterFetch(row, fate);
              && r.Some? && r.value.uidvalidity == Some(fate.fetch.uidvalidity) && r.value.modseq == fate.fetch.modseq
              && r.value.phase == "done" && r.value.lastError == None
              && r.value.retryCount == 0 && r.value.isPaused == 0
              && (forall u :: u in fate.fetch.uids ==> u <= r.value.lastUid)
              && (if fate.fetch.uids == [] then r.value.lastUid == 0 else r.value.lastUid in fate.fetch.uids)
    ensures fate.fetch.Failed? && fate.seedOk ==>
              AfterFetch(row, fate)
              == Some(Row(None, 0, None, "backfill", if fate.recordOk then Some(fate.fetch.error) else None,
                          if fate.recordOk then 1 else 0, 0))
    ensures !(if fate.fetch.Fetched? then fate.upsertOk else fate.seedOk) ==>
              match (row, AfterFetch(row, fate))
              case (None, after) => after.None?
              case (Some(_), None) => false
              case (Some(r), Some(after)) =>
                var recorded := fate.fetch.Failed? && fate.recordOk;
                && after.uidvalidity == r.uidvalidity && after.lastUid == r.lastUid && after.modseq == r.modseq
                && after.phase == (if fate.phaseOk then "backfill" else r.phase)
                && after.lastError == (if recorded then Some(fate.fetch.error) else r.lastError)
                && after.retryCount == r.retryCount + (if recorded then 1 else 0)
                && after.isPaused == (if fate.fetch.Failed? && fate.getOk && fate.pauseOk && after.retryCount > 3
                                      then 1 else r.isPaused)
  {
    if fate.fetch.Fetched? { MaxUidMeans(fate.fetch.uids); }
  }

  lemma {:induction false} MaxUidMeans(uids: seq<nat>)
    ensures forall u :: u in uids ==> u <= MaxUid(uids)
    ensures if uids == [] then MaxUid(uids) == 0 else MaxUid(uids) in uids
  {
    if uids == [] {
    } else {
      var init, last := uids[..|uids| - 1], uids[|uids| - 1];
      MaxUidMeans(init);
      MaxUidStep(uids);
      hide MaxUid;
      forall u | u in uids ensures u <= MaxUid(uids) {
        var i :| 0 <= i < |uids| && uids[i] == u;
        assert i < |init| ==> init[i] in init;
      }
      if MaxUid(uids) != last {
        var i :| 0 <= i < |init| && init[i] == MaxUid(init);
        assert uids[i] in uids;
      }
    }
  }

  lemma MaxUidStep(uids: seq<nat>)
    requires uids != []
    ensures var init, last := uids[..|uids| - 1], uids[|uids| - 1];
            && MaxUid(uids) >= MaxUid(init) && MaxUid(uids) >= last
            && (MaxUid(uids) == last || (MaxUid(uids) == MaxUid(init) && init != []))
  {
  }

  // ----- when a folder is paused -----

  /** A fetched folder ends the pass paused exactly in one of two ways. */
  lemma PausedAfterFetchIff(row: Option<Row>, fate: Fate)
    ensures IsPaused(AfterFetch(row, fate)) <==>
              && row.Some?
              && (if fate.fetch.Fetched? then !fate.upsertOk && row.value.isPaused == 1
                  else && !fate.seedOk
                       && (|| row.value.isPaused == 1
                           || (&& fate.getOk && fate.pauseOk
                               && row.value.retryCount + (if fate.recordOk then 1 else 0) > RESUME_RETRY_THRESHOLD)))
  {
  }

  /** One pass of a run, or a row the user writes. */
  datatype Event =
    | Pass(folders: seq<Folder>, fate: nat -> Fate, checkpoints: bool, lookupOk: bool)
    | UserWrite(path: string, row: Row)

  function AfterEvent(rows: Rows, e: Event): Rows {
    match e
    case Pass(folders, fate, checkpoints, lookupOk) =>
      AfterPass(rows, folders, PausedFolders(rows, checkpoints, lookupOk), fate, checkpoints)
    case UserWrite(path, row) => rows[path := row]
  }

  function AfterRun(rows: Rows, es: seq<Event>): Rows {
    if es == [] then rows else AfterEvent(AfterRun(rows, es[..|es| - 1]), es[|es| - 1])
  }

  /** The folder is fetched by event `n` of a run. */
  predicate FetchedBy(rows: Rows, es: seq<Event>, n: nat, path: string)
    requires n < |es|
  {
    && es[n].Pass?
    && path in Visited(es[n].folders, PausedFolders(AfterRun(rows, es[..n]), es[n].checkpoints, es[n].lookupOk))
  }

  /** A run whose passes all see the account and its paused folders, and in which the user leaves `path` alone. */
  ghost predicate Undisturbed(es: seq<Event>, path: string) {
    forall e :: e in es ==> Undisturbing(e, path)
  }

  ghost predicate Undisturbing(e: Event, path: string) {
    match e
    case Pass(_, _, checkpoints, lookupOk) => checkpoints && lookupOk
    case UserWrite(p, _) => p != path
  }

  /** A paused folder stays paused, untouched and unfetched, until the user resumes it. */
  lemma {:induction false} PausedStaysPaused(rows: Rows, es: seq<Event>, path: string, n: nat)
    requires IsPaused(Lookup(rows, path)) && Undisturbed(es, path)
    ensures Lookup(AfterRun(rows, es), path) == Lookup(rows, path)
    ensures n < |es| ==> !FetchedBy(rows, es, n, path)
  {
    if es == [] {
    } else {
      var k := |es| - 1;
      assert es[k] in es;
      PausedStaysPaused(rows, es[..k], path, n);
      var before := AfterRun(rows, es[..k]);
      if es[k].Pass? {
        var paused := PausedFolders(before, true, true);
        VisitedUnskipped(es[k].folders, paused, path);
        NotVisitedKeepsRow(Lookup(before, path), es[k].folders, paused, es[k].fate, path);
        FoldersAreIsolated(before, es[k].folders, paused, es[k].fate, true, path);
      }
      if n < k {
        assert es[..k][..n] == es[..n] && es[..k][n] == es[n];
      }
    }
  }

  /**
    A failed lookup of the paused folders reads as "none are paused": the pass fetches
    a paused folder like any other, and the flag outlives the pass exactly when the
    write of the folder's row fails.
   */
  lemma FailedLookupUnpauses(rows: Rows, folders: seq<Folder>, fate: nat -> Fate, i: nat)
    requires DistinctPaths(folders) && i < |folders| && !Special(folders[i]) && IsPaused(Lookup(rows, folders[i].path))
    ensures var p := folders[i].path;
            && p in Visited(folders, PausedFolders(rows, true, false))
            && (IsPaused(Lookup(AfterEvent(rows, Pass(folders, fate, true, false)), p)) <==>
                  if fate(i).fetch.Fetched? then !fate(i).upsertOk else !fate(i).seedOk)
  {
    hide AfterFetch, OwnRow, AfterPass, Visited;
    var p := folders[i].path;
    VisitedUnskipped(folders, {}, p);
    FoldersAreIsolated(rows, folders, {}, fate, true, p);
    FetchedOnce(Lookup(rows, p), folders, {}, fate, i);
    PausedAfterFetchIff(Lookup(rows, p), fate(i));
  }

  // ----- the history of one folder -----

  /** What happens to one folder's row: a fetch of it, or the user writing it. */
  datatype Own = Fetching(fate: Fate) | Writing(row: Row)

  function AfterOwn(row: Option<Row>, h: seq<Own>): Option<Row> {
    if h == [] then row else
    match h[|h| - 1]
    case Fetching(fate) => AfterFetch(AfterOwn(row, h[..|h| - 1]), fate)
    case Writing(written) => Some(written)
  }

  /** The fetches of one folder in a pass. */
  function OwnFetches(folders: seq<Folder>, paused: set<string>, fate: nat -> Fate, path: string): seq<Own> {
    if folders == [] then [] else
    var n := |folders| - 1;
    OwnFetches(folders[..n], paused, fate, path)
    + if folders[n].path == path && !Skips(folders[n], paused) then [Fetching(fate(n))] else []
  }

  /** What happens to one folder in a run. */
  function OwnHistory(rows: Rows, es: seq<Event>, path: string): seq<Own> {
    if es == [] then [] else
    var n := |es| - 1;
    var before := AfterRun(rows, es[..n]);
    OwnHistory(rows, es[..n], path)
    + match es[n]
      case Pass(folders, fate, checkpoints, lookupOk) =>
        if checkpoints then OwnFetches(folders, PausedFolders(before, checkpoints, lookupOk), fate, path) else []
      case UserWrite(p, row) => if p == path then [Writing(row)] else []
  }

  lemma {:induction false} AfterOwnAppend(row: Option<Row>, h: seq<Own>, more: seq<Own>)
    ensures AfterOwn(row, h + more) == AfterOwn(AfterOwn(row, h), more)
  {
    hide AfterFetch;
    if more == [] {
      assert h + more == h;
    } else {
      assert (h + more)[..|h + more| - 1] == h + more[..|more| - 1];
      AfterOwnAppend(row, h, more[..|more| - 1]);
    }
  }

  lemma {:induction false} OwnRowIsHistory(row: Option<Row>, folders: seq<Folder>, paused: set<string>,
                                           fate: nat -> Fate, path: string)
    ensures OwnRow(row, folders, paused, fate, path) == AfterOwn(row, OwnFetches(folders, paused, fate, path))
  {
    hide AfterFetch, Skips;
    if folders == [] {
    } else {
      var n := |folders| - 1;
      OwnRowIsHistory(row, folders[..n], paused, fate, path);
      var before := OwnFetches(folders[..n], paused, fate, path);
      assert (before + [Fetching(fate(n))])[..|before|] == before;
      assert before + [] == before;
    }
  }

  /** After any run, a folder's row is what its own history makes of it. */
  lemma {:induction false} RowFollowsHistory(rows: Rows, es: seq<Event>, path: string)
    ensures Lookup(AfterRun(rows, es), path) == AfterOwn(Lookup(rows, path), OwnHistory(rows, es, path))
  {
    hide AfterFetch, OwnRow, OwnFetches, AfterPass, PausedFolders;
    if es == [] {
    } else {
      var n := |es| - 1;
      var before, h := AfterRun(rows, es[..n]), OwnHistory(rows, es[..n], path);
      RowFollowsHistory(rows, es[..n], path);
      assert h + [] == h;
      match es[n]
      case Pass(folders, fate, checkpoints, lookupOk) =>
        var paused := PausedFolders(before, checkpoints, lookupOk);
        FoldersAreIsolated(before, folders, paused, fate, checkpoints, path);
        OwnRowIsHistory(Lookup(before, path), folders, paused, fate, path);
        AfterOwnAppend(Lookup(rows, path), h, OwnFetches(folders, paused, fate, path));
      case UserWrite(p, row) =>
        assert (h + [Writing(row)])[..|h|] == h;
    }
  }

  // ----- when a history pauses a folder -----

  /** The whole row is written anew. */
  predicate Overwrites(x: Own) {
    x.Writing? || (if x.fate.fetch.Fetched? then x.fate.upsertOk else x.fate.seedOk)
  }

  /** The errors recorded since the row was last written anew, on top of what it then said. */
  function Retries(row: Option<Row>, h: seq<Own>): int {
    if h == [] then if row.Some? then row.value.retryCount else 0 else
    var x := h[|h| - 1];
    if x.Writing? then x.row.retryCount
    else (if Overwrites(x) then 0 else Retries(row, h[..|h| - 1]))
         + if x.fate.fetch.Failed? && x.fate.recordOk then 1 else 0
  }

  predicate HasRow(row: Option<Row>, h: seq<Own>) {
    row.Some? || exists m :: 0 <= m < |h| && Overwrites(h[m])
  }

  /** The `n`-th event pauses the folder: the user does, or a failure finds the retries past the threshold. */
  predicate Pauses(row: Option<Row>, h: seq<Own>, n: nat)
    requires n < |h|
  {
    match h[n]
    case Writing(written) => written.isPaused == 1
    case Fetching(fate) =>
      && fate.fetch.Failed? && fate.getOk && fate.pauseOk
      && HasRow(row, h[..n + 1]) && Retries(row, h[..n + 1]) > RESUME_RETRY_THRESHOLD
  }

  predicate KeptFrom(h: seq<Own>, n: nat) {
    forall m :: n <= m < |h| ==> !Overwrites(h[m])
  }

  /** It was paused at the start, or something paused it, and no later event wrote the row anew. */
  ghost predicate EndsPaused(row: Option<Row>, h: seq<Own>) {
    || (IsPaused(row) && KeptFrom(h, 0))
    || exists n: nat :: n < |h| && Pauses(row, h, n) && KeptFrom(h, n + 1)
  }

  lemma {:induction false} RowAfterOwn(row: Option<Row>, h: seq<Own>)
    ensures AfterOwn(row, h).Some? <==> HasRow(row, h)
    ensures AfterOwn(row, h).Some? ==> AfterOwn(row, h).value.retryCount == Retries(row, h)
  {
    if h == [] {
    } else {
      var n := |h| - 1;
      RowAfterOwn(row, h[..n]);
      if Overwrites(h[n]) {
        assert HasRow(row, h);
      } else {
        assert HasRow(row, h) <==> HasRow(row, h[..n]) by {
          if m :| 0 <= m < |h| && Overwrites(h[m]) { assert h[..n][m] == h[m]; }
          if m :| 0 <= m < n && Overwrites(h[..n][m]) { assert h[..n][m] == h[m]; }
        }
      }
    }
  }

  lemma EndsPausedStep(row: Option<Row>, h: seq<Own>)
    requires h != []
    ensures EndsPaused(row, h) <==>
              || Pauses(row, h, |h| - 1)
              || (EndsPaused(row, h[..|h| - 1]) && !Overwrites(h[|h| - 1]))
  {
    hide Overwrites, Retries, HasRow;
    var last := |h| - 1;
    var init := h[..last];
    forall n: nat | n < last ensures Pauses(row, h, n) == Pauses(row, init, n) {
      assert init[..n + 1] == h[..n + 1];
    }
    forall n: nat | n <= last ensures KeptFrom(h, n) <==> KeptFrom(init, n) && !Overwrites(h[last]) {
      KeptFromStep(h, n);
    }
    assert KeptFrom(h, last + 1);
  }

  lemma KeptFromStep(h: seq<Own>, n: nat)
    requires n < |h|
    ensures KeptFrom(h, n) <==> KeptFrom(h[..|h| - 1], n) && !Overwrites(h[|h| - 1])
  {
    hide Overwrites;
    var init := h[..|h| - 1];
    if KeptFrom(h, n) {
      forall m | n <= m < |init| ensures !Overwrites(init[m]) { assert init[m] == h[m]; }
    }
    if KeptFrom(init, n) && !Overwrites(h[|h| - 1]) {
      forall m | n <= m < |h| ensures !Overwrites(h[m]) { assert m < |init| ==> init[m] == h[m]; }
    }
  }

  /** Exactly when a folder ends paused, over any history of fetches and writes of it. */
  lemma {:induction false} HistoryPausesIff(row: Option<Row>, h: seq<Own>)
    ensures IsPaused(AfterOwn(row, h)) <==> EndsPaused(row, h)
  {
    hide EndsPaused, HasRow, Retries;
    if h == [] {
      assert EndsPaused(row, []) <==> IsPaused(row) by { NothingPauses(row); }
    } else {
      var n := |h| - 1;
      HistoryPausesIff(row, h[..n]);
      EndsPausedStep(row, h);
      RowAfterOwn(row, h);
      RowAfterOwn(row, h[..n]);
      assert h[..n + 1] == h;
      if h[n].Fetching? { PausedAfterFetchIff(AfterOwn(row, h[..n]), h[n].fate); }
    }
  }

  lemma NothingPauses(row: Option<Row>)
    ensures EndsPaused(row, []) <==> IsPaused(row)
  {
  }

  /** Exactly when a folder ends paused, over any run of passes and user writes. */
  lemma RunPausesIff(rows: Rows, es: seq<Event>, path: string)
    ensures IsPaused(Lookup(AfterRun(rows, es), path)) <==> EndsPaused(Lookup(rows, path), OwnHistory(rows, es, path))
  {
    hide AfterRun, OwnHistory, AfterOwn, EndsPaused;
    RowFollowsHistory(rows, es, path);
    HistoryPausesIff(Lookup(rows, path), OwnHistory(rows, es, path));
  }

  /** Every failure of `path` in the run manages to seed its row. */
  ghost predicate SeedsSucceed(es: seq<Event>, path: string) {
    forall e :: e in es ==> SeedSucceeds(e, path)
  }

  ghost predicate SeedSucceeds(e: Event, path: string) {
    match e
    case Pass(folders, fate, _, _) => forall i :: 0 <= i < |folders| && folders[i].path == path ==> fate(i).seedOk
    case UserWrite(p, _) => p != path
  }

  /** Not paused, and tried again at most once or as often as at the start. */
  predicate Untroubled(start: Option<Row>, row: Option<Row>) {
    && !IsPaused(row)
    && (row.Some? ==> row.value.retryCount <= 1
                      || (start.Some? && row.value.retryCount == start.value.retryCount))
  }

  lemma {:induction false} PassKeepsUntroubled(start: Option<Row>, row: Option<Row>, folders: seq<Folder>,
                                               paused: set<string>, fate: nat -> Fate, path: string)
    requires Untroubled(start, row)
    requires forall i :: 0 <= i < |folders| && folders[i].path == path ==> fate(i).seedOk
    ensures Untroubled(start, OwnRow(row, folders, paused, fate, path))
  {
    if folders == [] {
    } else {
      var n := |folders| - 1;
      forall i | 0 <= i < n && folders[..n][i].path == path ensures fate(i).seedOk { assert folders[i].path == path; }
      PassKeepsUntroubled(start, row, folders[..n], paused, fate, path);
    }
  }

  /**
    The threshold is never reached: however many passes fail, a folder that is not
    paused does not become paused, because each failure starts by resetting the
    retry count to zero; the count is at most one from the first failure on.
   */
  lemma {:induction false} ThresholdNeverReached(rows: Rows, es: seq<Event>, path: string)
    requires SeedsSucceed(es, path) && !IsPaused(Lookup(rows, path))
    ensures Untroubled(Lookup(rows, path), Lookup(AfterRun(rows, es), path))
  {
    hide AfterFetch, OwnRow;
    if es == [] {
    } else {
      var k := |es| - 1;
      assert es[k] in es;
      ThresholdNeverReached(rows, es[..k], path);
      var before := AfterRun(rows, es[..k]);
      if es[k].Pass? {
        var paused := PausedFolders(before, es[k].checkpoints, es[k].lookupOk);
        FoldersAreIsolated(before, es[k].folders, paused, es[k].fate, es[k].checkpoints, path);
        PassKeepsUntroubled(Lookup(rows, path), Lookup(before, path), es[k].folders, paused, es[k].fate, path);
      }
    }
  }

  /** One retry, no pause, and no checkpoint. */
  predicate FailedOnce(row: Option<Row>) {
    && row.Some? && row.value.retryCount == 1 && row.value.isPaused == 0
    && row.value.lastUid == 0 && row.value.uidvalidity == None
  }

  /** Failures do not add up: whatever came before, a failure that seeds and records leaves one retry. */
  lemma FailuresNeverAddUp(rows: Rows, es: seq<Event>, path: string)
    requires var h := OwnHistory(rows, es, path);
             && h != [] && h[|h| - 1].Fetching?
             && var fate := h[|h| - 1].fate; fate.fetch.Failed? && fate.seedOk && fate.recordOk
    ensures FailedOnce(Lookup(AfterRun(rows, es), path))
  {
    hide AfterRun, OwnHistory;
    RowFollowsHistory(rows, es, path);
  }
}
