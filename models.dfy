/**
 * The persisted data model of the download daemon: the `Status` enumeration,
 * the `games` table as a class whose fields are updated in place, the effects
 * a session produces (commits, and the daemon's calls to `Popen`), and the
 * `Query.one()` lookup of a single record by name that both front end and
 * daemon rely on.
 */
module Models {
  import opened Results

  /** The five members of the `Status` enumeration, in declaration order. */
  datatype Status = New | Queued | Running | Done | Failed

  /** Declared length of the `name` column. */
  const MaxNameLength := 250

  /** The integer value each `Status` member is declared with. */
  function StatusValue(s: Status): (v: int)
    ensures 1 <= v <= 5
  {
    match s
    case New => 1
    case Queued => 2
    case Running => 3
    case Done => 4
    case Failed => 5
  }

  /** `Status(v)`: the member declared with value `v`, if there is one. */
  function StatusFromValue(v: int): (r: Option<Status>)
    ensures r.Some? <==> 1 <= v <= 5
    ensures r.Some? ==> StatusValue(r.value) == v
  {
    if v == 1 then Some(New)
    else if v == 2 then Some(Queued)
    else if v == 3 then Some(Running)
    else if v == 4 then Some(Done)
    else if v == 5 then Some(Failed)
    else None
  }

  /** Reading back a member's value gives the member again. */
  lemma StatusRoundTrip(s: Status)
    ensures StatusFromValue(StatusValue(s)) == Some(s)
  {
  }

  /** Every member of the enumeration, in declaration order. */
  const AllStatuses: seq<Status> := [New, Queued, Running, Done, Failed]

  /** The enumeration has exactly five members, with the values 1 to 5 in order. */
  lemma StatusMembers(s: Status)
    ensures |AllStatuses| == 5 && s in AllStatuses
    ensures forall i :: 0 <= i < |AllStatuses| ==> StatusValue(AllStatuses[i]) == i + 1
  {
  }

  /** Distinct members have distinct values, so a value names at most one member. */
  lemma StatusValueInjective(s: Status, t: Status)
    ensures StatusValue(s) == StatusValue(t) ==> s == t
  {
  }

  /**
   * One row of the `games` table as the session's identity map holds it.
   * `id` is the primary key, assigned once; the other columns can be
   * assigned in place and are written back by a commit.
   */
  class Game {
    const id: int
    var name: string            // non-null, declared with length 250
    var platform: int           // non-null
    var progress: Option<int>   // nullable
    var state: Option<Status>   // nullable, otherwise a member of Status

    /** The column declarations: the name fits its declared length. */
    predicate Valid()
      reads this
    {
      |name| <= MaxNameLength
    }

    /** A new row: the non-null columns must be given, the nullable ones start out NULL. */
    constructor (id: int, name: string, platform: int)
      requires |name| <= MaxNameLength
      ensures Valid()
      ensures this.id == id && this.name == name && this.platform == platform
      ensures progress == None && state == None
    {
      this.id := id;
      this.name := name;
      this.platform := platform;
      progress := None;
      state := None;
    }
  }

  /**
   * The states in which a game has a download in progress: the daemon
   * dispatches a download for it and the front end shows it as active.
   */
  predicate Active(state: Option<Status>)
  {
    state == Some(Queued) || state == Some(Running)
  }

  /** The primary key: no two rows of a table share an `id`. */
  predicate UniqueIds(games: seq<Game>)
  {
    forall i, j :: 0 <= i < j < |games| ==> games[i].id != games[j].id
  }

  /** Rows with distinct keys are distinct objects, so updating one leaves the others alone. */
  lemma UniqueIdsDistinct(games: seq<Game>, i: int, j: int)
    requires UniqueIds(games)
    requires 0 <= i < |games| && 0 <= j < |games| && i != j
    ensures games[i] != games[j]
  {
  }

  /**
   * What the daemon and the front end do that is observable outside the
   * process: a session commit (recording the state written for the row
   * with that id) and a call to `Popen` to start the external downloader
   * with that argument vector, whether or not the call then raised.
   */
  datatype Event = Commit(id: int, state: Option<Status>) | Spawn(argv: seq<string>)

  /** The two exceptions `Query.one()` raises. */
  datatype QueryError = NoResultFound | MultipleResultsFound

  /**
   * `session.query(Game).filter(Game.name == name).one()`: the only row
   * with that name, or the error `one()` raises when there is none or
   * more than one.
   */
  function QueryOne(games: seq<Game>, name: string): (r: Result<Game, QueryError>)
    reads games
    ensures r == Err(NoResultFound) <==> forall i :: 0 <= i < |games| ==> games[i].name != name
    ensures r == Err(MultipleResultsFound) <==>
      exists i, j :: 0 <= i < j < |games| && games[i].name == name && games[j].name == name
    ensures r.Ok? ==> r.value in games && r.value.name == name
    ensures r.Ok? ==> forall i :: 0 <= i < |games| && games[i].name == name ==> games[i] == r.value
  {
    if |games| == 0 then Err(NoResultFound)
    else
      var rest := QueryOne(games[1..], name);
      if games[0].name != name then
        assert forall i :: 1 <= i < |games| ==> games[i] == games[1..][i - 1];
        rest
      else if rest == Err(NoResultFound) then
        Ok(games[0])
      else
        assert exists k :: 0 <= k < |games[1..]| && games[1..][k].name == name;
        assert forall k :: 0 <= k < |games[1..]| ==> games[1..][k] == games[k + 1];
        Err(MultipleResultsFound)
  }
}
