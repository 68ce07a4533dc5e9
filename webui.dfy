/**
 * The web front end's two operations on the game records: the library
 * page, which gives every catalogue entry a download flag, and the
 * `/download/<game>` route, which queues a game.
 *
 * The code compares the state column with the string literals 'queue' and
 * 'running' and writes 'queue', while the enumeration's members are
 * `queued` and `running`. A Python enum member never equals a string, so as
 * written neither comparison ever holds. The operations below model the
 * evident intent, reading 'queue' as `Queued` and 'running' as `Running`;
 * `FlagAsWritten` and `RouteGuardAsWritten` model the comparisons as they
 * are written.
 */
module WebUi {
  import opened Results
  import opened Models

  // ---------------------------------------------------------------------
  // The comparisons as written
  // ---------------------------------------------------------------------

  /** The Python values the state comparisons see: NULL, an enum member, or a string literal. */
  datatype PyValue = PyNone | PyMember(member: Status) | PyStr(s: string)

  /** The value a state column holds when it is read back. */
  function ColumnValue(state: Option<Status>): (v: PyValue)
    ensures !v.PyStr?
  {
    match state
    case None => PyNone
    case Some(s) => PyMember(s)
  }

  /**
   * The download flag as written: `state == 'queue'` and `state == 'running'`
   * compare a column value with a string, which is never equal, so the
   * flag depends on the directory alone.
   */
  function FlagAsWritten(state: Option<Status>, dirExists: bool): (flag: int)
    ensures flag == (if dirExists then 1 else -1)
  {
    var v := ColumnValue(state);
    if v == PyStr("queue") then 0
    else if v == PyStr("running") then 0
    else if dirExists then 1
    else -1
  }

  /**
   * The route's guard as written: `db_game.state != 'running'` holds for
   * every state, so a running game is queued again.
   */
  function RouteGuardAsWritten(state: Option<Status>): (queue: bool)
    ensures queue
  {
    ColumnValue(state) != PyStr("running")
  }

  // ---------------------------------------------------------------------
  // The library page
  // ---------------------------------------------------------------------

  /**
   * The download flag of one catalogue entry, from its record's state and
   * whether its directory exists in the library: 0 while the game is
   * queued or running, otherwise 1 if its directory exists and -1 if not.
   */
  function DownloadFlag(state: Option<Status>, dirExists: bool): (flag: int)
    ensures -1 <= flag <= 1
  {
    if state == Some(Queued) then 0        // written as `state == 'queue'`
    else if state == Some(Running) then 0  // written as `state == 'running'`
    else if dirExists then 1
    else -1
  }

  /** What each flag value means, in both directions. */
  lemma DownloadFlagMeaning(state: Option<Status>, dirExists: bool)
    ensures DownloadFlag(state, dirExists) == 0 <==> Active(state)
    ensures DownloadFlag(state, dirExists) == 1 <==> !Active(state) && dirExists
    ensures DownloadFlag(state, dirExists) == -1 <==> !Active(state) && !dirExists
  {
  }

  /** The discrepancy: a queued game whose directory exists is shown as downloaded, not as in progress. */
  lemma FlagDiscrepancy()
    ensures FlagAsWritten(Some(Queued), true) == 1
    ensures DownloadFlag(Some(Queued), true) == 0
  {
  }

  /** The route's intended guard: every game that is not running is (re)queued. */
  predicate Requeues(state: Option<Status>)
  {
    state != Some(Running)
  }

  /** The discrepancy: the guard as written lets a running game through; the intended one does not. */
  lemma RouteGuardDiscrepancy()
    ensures RouteGuardAsWritten(Some(Running))
    ensures !Requeues(Some(Running))
  {
  }

  /** One entry of the catalogue's `games` list: its name, and its `download` key if set. */
  datatype CatalogueEntry = CatalogueEntry(gamename: string, download: Option<int>)

  /** The flag an entry gets: its record's flag, or the error `one()` raises looking it up. */
  function EntryFlag(entry: CatalogueEntry, games: seq<Game>, dirs: set<string>): (r: Result<int, QueryError>)
    reads games
    ensures r.Ok? ==> -1 <= r.value <= 1
    ensures r.Err? <==> QueryOne(games, entry.gamename).Err?
  {
    match QueryOne(games, entry.gamename)
    case Err(e) => Err(e)
    case Ok(g) => Ok(DownloadFlag(g.state, entry.gamename in dirs))
  }

  /** `after` is `before` with its `download` key set to the entry's flag. */
  ghost predicate Flagged(before: CatalogueEntry, after: CatalogueEntry, games: seq<Game>, dirs: set<string>)
    reads games
  {
    EntryFlag(before, games, dirs).Ok?
    && after == before.(download := Some(EntryFlag(before, games, dirs).value))
  }

  /** The first `k` entries of `after` are those of `before` with their flags set. */
  ghost predicate FlaggedUpTo(before: seq<CatalogueEntry>, after: seq<CatalogueEntry>, k: int, games: seq<Game>, dirs: set<string>)
    reads games
  {
    0 <= k <= |before| == |after|
    && forall j :: 0 <= j < k ==> Flagged(before[j], after[j], games, dirs)
  }

  /** Flagging one more entry extends the flagged prefix by one. */
  lemma FlaggedUpToExtend(before: seq<CatalogueEntry>, after: seq<CatalogueEntry>, k: int, entry: CatalogueEntry,
                          games: seq<Game>, dirs: set<string>)
    requires FlaggedUpTo(before, after, k, games, dirs) && k < |before|
    requires Flagged(before[k], entry, games, dirs)
    ensures FlaggedUpTo(before, after[k := entry], k + 1, games, dirs)
  {
  }

  /** What the library route answers. */
  datatype Page =
    | Rendered              // the library template, over the flagged catalogue
    | DatabaseUnavailable   // "Unable to load the GOG games database."
    | QueryFailed(error: QueryError)

  /**
   * `library()`: give every catalogue entry its download flag, in place and
   * in order, each first set to -1. `catalogue` is null when the JSON value
   * of the catalogue file is `null`; a missing, empty or malformed file
   * raises while loading, which is not modelled. `dirs` names the
   * directories of the library. A lookup that raises ends the route at that
   * entry, whose flag is then -1 and after which no entry is touched.
   */
  method Library(catalogue: array?<CatalogueEntry>, games: seq<Game>, dirs: set<string>) returns (page: Page)
    modifies catalogue
    ensures catalogue == null <==> page == DatabaseUnavailable
    ensures catalogue != null && page == Rendered ==>
      FlaggedUpTo(old(catalogue[..]), catalogue[..], catalogue.Length, games, dirs)
    ensures catalogue != null && page.QueryFailed? ==>
      exists k :: 0 <= k < catalogue.Length
        && FlaggedUpTo(old(catalogue[..]), catalogue[..], k, games, dirs)
        && EntryFlag(old(catalogue[..])[k], games, dirs) == Err(page.error)
        && catalogue[..][k] == old(catalogue[..])[k].(download := Some(-1))
        && catalogue[..][k + 1..] == old(catalogue[..])[k + 1..]
  {
    if catalogue == null {
      return DatabaseUnavailable;
    }
    ghost var before := catalogue[..];
    var i := 0;
    while i < catalogue.Length
      invariant 0 <= i <= catalogue.Length
      invariant FlaggedUpTo(before, catalogue[..], i, games, dirs)
      invariant catalogue[i..] == before[i..]
    {
      var entry := catalogue[i];
      assert entry == before[i];
      ghost var unflagged := catalogue[..];
      catalogue[i] := entry.(download := Some(-1));
      assert catalogue[..] == unflagged[i := entry.(download := Some(-1))];
      var row := QueryOne(games, entry.gamename);
      if row.Err? {
        assert FlaggedUpTo(before, catalogue[..], i, games, dirs);
        assert catalogue[..][i + 1..] == before[i + 1..];
        return QueryFailed(row.error);
      }
      var flag := DownloadFlag(row.value.state, entry.gamename in dirs);
      ghost var current := catalogue[..];
      FlaggedUpToExtend(before, current, i, entry.(download := Some(flag)), games, dirs);
      catalogue[i] := entry.(download := Some(flag));
      assert catalogue[..] == current[i := entry.(download := Some(flag))];
      i := i + 1;
    }
    return Rendered;
  }

  // ---------------------------------------------------------------------
  // The download route
  // ---------------------------------------------------------------------

  /**
   * `/download/<game>`: look the record up by name; unless it is running,
   * set its state to queued and commit. Only that record's state changes.
   * The result is the commits made, or the error the lookup raised.
   */
  method DownloadRoute(games: seq<Game>, name: string) returns (r: Result<seq<Event>, QueryError>)
    modifies games
    ensures var q := old(QueryOne(games, name));
      q.Err? ==> r == Err(q.error) && forall h :: h in games ==> unchanged(h)
    ensures var q := old(QueryOne(games, name));
      q.Ok? ==> var g := q.value;
        r.Ok?
        && (!old(Requeues(g.state)) ==> g.state == Some(Running) && r.value == [])
        && (old(Requeues(g.state)) ==> g.state == Some(Queued) && r.value == [Commit(g.id, Some(Queued))])
        && g.name == old(g.name) && g.platform == old(g.platform) && g.progress == old(g.progress)
        && (g.Valid() <==> old(g.Valid()))
        && forall h :: h in games && h != g ==> unchanged(h)
  {
    var row := QueryOne(games, name);
    if row.Err? {
      return Err(row.error);
    }
    var game := row.value;
    if Requeues(game.state) {               // written as `db_game.state != 'running'`
      game.state := Some(Queued);           // written as `db_game.state = 'queue'`
      return Ok([Commit(game.id, game.state)]);
    }
    return Ok([]);
  }
}
