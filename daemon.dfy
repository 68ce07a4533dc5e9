/**
 * The download daemon: the bounded-retry download of one game, and one
 * iteration of the daemon's main loop (the `update()` countdown and
 * the dispatch of every queued or running game).
 *
 * The external downloader is not run: the outcome of each attempt is an
 * input, one per possible attempt, standing for what `Popen(...)` and
 * `communicate()` would have produced. `communicate()` is called without a
 * timeout, so an attempt that never returns is outside this model.
 */
module Daemon {
  import opened Results
  import opened Models

  /** Attempts made before a download is given up as failed. */
  const MaxAttempts := 5

  /** Main-loop iterations between two calls to `update()`; each sleeps 5 seconds, so at least an hour apart. */
  const UpdateInterval := 720

  /** What one attempt to run the downloader produced: an exit code, or an exception. */
  datatype Attempt = Exited(code: int) | Raised

  /** Only a zero exit code ends the retry loop; a non-zero code is raised as `OSError` and caught. */
  predicate Succeeded(a: Attempt)
  {
    a == Exited(0)
  }

  // ---------------------------------------------------------------------
  // The argument vector
  // ---------------------------------------------------------------------

  /** The fixed options that precede the game pattern. */
  const CommandPrefix: seq<string> := ["lgogdownloader", "--download", "--game"]

  /** The downloader's argument vector for one game: its name anchored as a whole-string pattern. */
  function DownloadCommand(name: string): (argv: seq<string>)
    ensures |argv| == 4 && argv[..3] == CommandPrefix
    ensures GameFromCommand(argv) == Some(name)
  {
    var argv := CommandPrefix + ["^" + name + "$"];
    assert argv[3][1..|argv[3]| - 1] == name;
    argv
  }

  /** The game an argument vector downloads, if it has the shape `DownloadCommand` builds. */
  function GameFromCommand(argv: seq<string>): (r: Option<string>)
    ensures r.Some? ==> |argv| == 4 && argv[..3] == CommandPrefix
    ensures r.Some? ==> argv[3] == "^" + r.value + "$"
  {
    if |argv| == 4 && argv[..3] == CommandPrefix && |argv[3]| >= 2
       && argv[3][0] == '^' && argv[3][|argv[3]| - 1] == '$'
    then
      var pattern := argv[3];
      var name := pattern[1..|pattern| - 1];
      assert pattern == "^" + name + "$";
      Some(name)
    else None
  }

  /** Distinct games are never downloaded with the same command. */
  lemma DownloadCommandInjective(a: string, b: string)
    ensures DownloadCommand(a) == DownloadCommand(b) ==> a == b
  {
  }

  // ---------------------------------------------------------------------
  // The retry policy, as functions of the attempt outcomes
  // ---------------------------------------------------------------------

  /** The number of failed attempts before the first successful one. */
  function LeadingFailures(outcomes: seq<Attempt>): (n: nat)
    ensures n <= |outcomes|
    ensures forall i :: 0 <= i < n ==> !Succeeded(outcomes[i])
    ensures n < |outcomes| ==> Succeeded(outcomes[n])
  {
    if |outcomes| == 0 then 0
    else if Succeeded(outcomes[0]) then 0
    else 1 + LeadingFailures(outcomes[1..])
  }

  /** How many attempts are made (each calls `Popen`): up to and including the first success, at most five. */
  function AttemptsMade(outcomes: seq<Attempt>): (k: nat)
    requires |outcomes| == MaxAttempts
    ensures 1 <= k <= MaxAttempts
    ensures forall i :: 0 <= i < k - 1 ==> !Succeeded(outcomes[i])
    ensures k < MaxAttempts ==> Succeeded(outcomes[k - 1])
  {
    var n := LeadingFailures(outcomes);
    if n == MaxAttempts then MaxAttempts else n + 1
  }

  /** The state a download ends in: failed when every attempt failed, done otherwise. */
  function FinalState(outcomes: seq<Attempt>): (s: Status)
    requires |outcomes| == MaxAttempts
    ensures s == Failed <==> forall i :: 0 <= i < MaxAttempts ==> !Succeeded(outcomes[i])
    ensures s == Done <==> exists i :: 0 <= i < MaxAttempts && Succeeded(outcomes[i])
  {
    if LeadingFailures(outcomes) == MaxAttempts then Failed else Done
  }

  /** `n` calls to `Popen` with the download command of the game called `name`. */
  function Spawns(name: string, n: nat): (t: seq<Event>)
    ensures |t| == n
    ensures forall i :: 0 <= i < n ==> t[i] == Spawn(DownloadCommand(name))
  {
    seq(n, _ => Spawn(DownloadCommand(name)))
  }

  /**
   * Everything one download does, in order: commit `running`, call `Popen`
   * once per attempt, commit the final state.
   */
  function DownloadTrace(id: int, name: string, outcomes: seq<Attempt>): seq<Event>
    requires |outcomes| == MaxAttempts
  {
    [Commit(id, Some(Running))] + Spawns(name, AttemptsMade(outcomes)) + [Commit(id, Some(FinalState(outcomes)))]
  }

  /**
   * The shape of a download: `running` is committed before the first
   * attempt, there are between one and five calls to `Popen`, all with this
   * game's command, and the last event commits a final state that is not `running`.
   */
  lemma DownloadTraceShape(id: int, name: string, outcomes: seq<Attempt>)
    requires |outcomes| == MaxAttempts
    ensures var t := DownloadTrace(id, name, outcomes);
      3 <= |t| <= 2 + MaxAttempts
      && t[0] == Commit(id, Some(Running))
      && (forall i :: 1 <= i < |t| - 1 ==> t[i] == Spawn(DownloadCommand(name)))
      && t[|t| - 1] == Commit(id, Some(FinalState(outcomes)))
      && t[|t| - 1].state != Some(Running)
  {
  }

  /** The loop stops at the first attempt whose exit code is zero: no later attempt is made. */
  lemma StopsAtFirstSuccess(outcomes: seq<Attempt>, i: int)
    requires |outcomes| == MaxAttempts
    requires 0 <= i < MaxAttempts && Succeeded(outcomes[i])
    requires forall j :: 0 <= j < i ==> !Succeeded(outcomes[j])
    ensures AttemptsMade(outcomes) == i + 1
    ensures FinalState(outcomes) == Done
  {
  }

  /** Five failed attempts, whatever their kind, use up the budget and end in `failed`. */
  lemma AllFailedIsFailed(outcomes: seq<Attempt>)
    requires |outcomes| == MaxAttempts
    requires forall i :: 0 <= i < MaxAttempts ==> !Succeeded(outcomes[i])
    ensures AttemptsMade(outcomes) == MaxAttempts
    ensures FinalState(outcomes) == Failed
  {
  }

  /**
   * A non-zero exit code and a raised exception count the same: each is
   * one failed attempt, so exchanging one failure for another changes
   * nothing the download does.
   */
  lemma {:induction false} FailureKindIrrelevant(id: int, name: string, outcomes: seq<Attempt>, i: int, other: Attempt)
    requires |outcomes| == MaxAttempts && 0 <= i < MaxAttempts
    requires !Succeeded(outcomes[i]) && !Succeeded(other)
    ensures DownloadTrace(id, name, outcomes[i := other]) == DownloadTrace(id, name, outcomes)
  {
    LeadingFailuresSameSuccesses(outcomes, outcomes[i := other]);
  }

  /** Two outcome sequences that succeed at the same positions have the same leading failures. */
  lemma LeadingFailuresSameSuccesses(a: seq<Attempt>, b: seq<Attempt>)
    requires |a| == |b|
    requires forall i :: 0 <= i < |a| ==> (Succeeded(a[i]) <==> Succeeded(b[i]))
    ensures LeadingFailures(a) == LeadingFailures(b)
  {
  }

  // ---------------------------------------------------------------------
  // The download itself
  // ---------------------------------------------------------------------

  /**
   * `download(session, game)`: mark the game running and commit, try the
   * downloader up to five times, then commit `failed` if every attempt
   * failed and `done` otherwise. `outcomes[i]` is what attempt `i` would
   * produce; the events are the commits and the calls to `Popen`, in order.
   */
  method Download(game: Game, outcomes: seq<Attempt>) returns (trace: seq<Event>)
    requires |outcomes| == MaxAttempts
    modifies game
    ensures game.state == Some(FinalState(outcomes))
    ensures game.name == old(game.name) && game.platform == old(game.platform)
    ensures game.progress == old(game.progress)
    ensures game.Valid() <==> old(game.Valid())
    ensures trace == DownloadTrace(game.id, game.name, outcomes)
  {
    var count := 0;
    game.state := Some(Running);
    trace := [Commit(game.id, game.state)];
    while count < MaxAttempts
      invariant 0 <= count <= MaxAttempts
      invariant forall j :: 0 <= j < count ==> !Succeeded(outcomes[j])
      invariant game.name == old(game.name) && game.platform == old(game.platform)
      invariant game.progress == old(game.progress)
      invariant trace == [Commit(game.id, Some(Running))] + Spawns(game.name, count)
    {
      var argv := DownloadCommand(game.name);
      trace := trace + [Spawn(argv)];
      // A non-zero exit code is raised as OSError; it and any other exception land in the bare except.
      var raised := match outcomes[count]
        case Raised => true
        case Exited(code) => code != 0;
      if !raised {
        assert Spawns(game.name, count) + [Spawn(argv)] == Spawns(game.name, count + 1);
        StopsAtFirstSuccess(outcomes, count);
        break;
      }
      count := count + 1;
      assert trace == [Commit(game.id, Some(Running))] + Spawns(game.name, count);
    }
    if count == MaxAttempts {
      AllFailedIsFailed(outcomes);
      game.state := Some(Failed);
    } else {
      game.state := Some(Done);
    }
    trace := trace + [Commit(game.id, game.state)];
  }

  /**
   * `download` as written: line 43 calls `logger.debug`, but no `logger`
   * is bound in the module, so every attempt raises `NameError` before the
   * downloader is started with `Popen` and the bare except swallows it. The downloader
   * never runs and the game always ends `failed`.
   */
  method DownloadAsWritten(game: Game) returns (trace: seq<Event>)
    modifies game
    ensures game.state == Some(Failed)
    ensures game.name == old(game.name) && game.platform == old(game.platform)
    ensures game.progress == old(game.progress)
    ensures trace == DownloadTraceAsWritten(game.id)
  {
    var count := 0;
    game.state := Some(Running);
    trace := [Commit(game.id, game.state)];
    while count < MaxAttempts
      invariant 0 <= count <= MaxAttempts
      invariant game.state == Some(Running)
    {
      // The NameError from `logger.debug` is raised before Popen is reached.
      count := count + 1;
    }
    if count == MaxAttempts {
      game.state := Some(Failed);
    } else {
      // `done` is unreachable: the loop always uses up all five attempts.
      assert false;
    }
    trace := trace + [Commit(game.id, game.state)];
  }

  /**
   * Everything the download as written does: it commits `running`, never
   * calls `Popen`, and commits `failed`.
   */
  function DownloadTraceAsWritten(id: int): (t: seq<Event>)
    ensures forall e :: e in t ==> e.Commit? && e.id == id
    ensures |t| > 0 && t[|t| - 1] == Commit(id, Some(Failed))
  {
    [Commit(id, Some(Running)), Commit(id, Some(Failed))]
  }

  /**
   * The discrepancy: when the downloader would succeed at the first try,
   * the intended download calls `Popen` once and ends `done`, while the code
   * as written never calls it and ends `failed`.
   */
  lemma NameErrorDiscrepancy(id: int, name: string, outcomes: seq<Attempt>)
    requires |outcomes| == MaxAttempts && Succeeded(outcomes[0])
    ensures FinalState(outcomes) == Done
    ensures DownloadTrace(id, name, outcomes) ==
      [Commit(id, Some(Running)), Spawn(DownloadCommand(name)), Commit(id, Some(Done))]
    ensures DownloadTrace(id, name, outcomes) != DownloadTraceAsWritten(id)
  {
  }

  // ---------------------------------------------------------------------
  // One iteration of the main loop
  // ---------------------------------------------------------------------

  /** The countdown after one iteration: reset to 720 when it reached 0, then decremented. */
  function NextCountdown(countdown: int): (next: int)
    requires 0 <= countdown <= UpdateInterval
    ensures 0 <= next < UpdateInterval
    ensures countdown > 0 ==> next == countdown - 1
    ensures countdown == 0 ==> next == UpdateInterval - 1
  {
    (if countdown == 0 then UpdateInterval else countdown) - 1
  }

  /** The countdown after `n` iterations of the main loop, starting from 720. */
  function CountdownAfter(n: nat): (c: int)
    ensures 0 <= c <= UpdateInterval
  {
    if n == 0 then UpdateInterval else NextCountdown(CountdownAfter(n - 1))
  }

  /** The remainder of a division by 720 is the unique remainder in [0, 720). */
  lemma ModInterval(a: int, q: int, r: int)
    requires 0 <= r < UpdateInterval && a == q * UpdateInterval + r
    ensures a % UpdateInterval == r
  {
  }

  /** After the first iteration the countdown is 719 - (n - 1) mod 720. */
  lemma {:induction false} CountdownClosedForm(n: nat)
    requires n >= 1
    ensures CountdownAfter(n) == UpdateInterval - 1 - (n - 1) % UpdateInterval
  {
    if n > 1 {
      CountdownClosedForm(n - 1);
      var q, r := (n - 2) / UpdateInterval, (n - 2) % UpdateInterval;
      if r == UpdateInterval - 1 {
        ModInterval(n - 1, q + 1, 0);
      } else {
        ModInterval(n - 1, q, r + 1);
      }
    }
  }

  /**
   * `update()` runs at the start of iteration `n + 1` exactly when `n` is a
   * positive multiple of 720: never at the first iteration, then once every
   * 720 iterations.
   */
  lemma UpdateSchedule(n: nat)
    ensures CountdownAfter(n) == 0 <==> n > 0 && n % UpdateInterval == 0
  {
    if n > 0 {
      CountdownClosedForm(n);
      var q, r := n / UpdateInterval, n % UpdateInterval;
      if r == 0 {
        ModInterval(n - 1, q - 1, UpdateInterval - 1);
      } else {
        ModInterval(n - 1, q, r - 1);
      }
    }
  }

  /** The events of one iteration: the downloads of the dispatched games, in list order. */
  function TickTrace(games: seq<Game>, outcomes: seq<seq<Attempt>>): seq<Event>
    requires |outcomes| == |games|
    requires forall i :: 0 <= i < |outcomes| ==> |outcomes[i]| == MaxAttempts
    reads games
  {
    if |games| == 0 then []
    else
      var n := |games| - 1;
      TickTrace(games[..n], outcomes[..n])
      + (if Active(games[n].state) then DownloadTrace(games[n].id, games[n].name, outcomes[n]) else [])
  }

  /**
   * In one iteration exactly the queued and running games are downloaded:
   * every commit is for a dispatched game, and every dispatched game is
   * committed as running.
   */
  lemma {:induction false} TickTraceDispatched(games: seq<Game>, outcomes: seq<seq<Attempt>>)
    requires |outcomes| == |games|
    requires forall i :: 0 <= i < |outcomes| ==> |outcomes[i]| == MaxAttempts
    ensures forall e :: e in TickTrace(games, outcomes) && e.Commit? ==>
      exists i :: 0 <= i < |games| && Active(games[i].state) && games[i].id == e.id
    ensures forall i :: 0 <= i < |games| && Active(games[i].state) ==>
      Commit(games[i].id, Some(Running)) in TickTrace(games, outcomes)
  {
    if |games| > 0 {
      var n := |games| - 1;
      TickTraceDispatched(games[..n], outcomes[..n]);
      var t := TickTrace(games, outcomes);
      var front := TickTrace(games[..n], outcomes[..n]);
      var last := if Active(games[n].state) then DownloadTrace(games[n].id, games[n].name, outcomes[n]) else [];
      assert t == front + last;
      if Active(games[n].state) {
        DownloadTraceShape(games[n].id, games[n].name, outcomes[n]);
        assert last[0] == Commit(games[n].id, Some(Running));
      }
      forall e | e in t && e.Commit?
        ensures exists i :: 0 <= i < |games| && Active(games[i].state) && games[i].id == e.id
      {
        if e in front {
          var i :| 0 <= i < n && Active(games[..n][i].state) && games[..n][i].id == e.id;
          assert games[i] == games[..n][i];
        } else {
          assert e in last;
          DownloadTraceShape(games[n].id, games[n].name, outcomes[n]);
          var k :| 0 <= k < |last| && last[k] == e;
          assert games[n].id == e.id;
        }
      }
      forall i | 0 <= i < |games| && Active(games[i].state)
        ensures Commit(games[i].id, Some(Running)) in t
      {
        if i < n {
          assert games[..n][i] == games[i];
        }
      }
    }
  }

  /**
   * One iteration of the main loop, sleep excluded: run `update()` if the
   * countdown has reached 0 and reset it, download every game whose state
   * is queued or running (`outcomes[i]` for `games[i]`), and count down.
   * Every other game is left as it was.
   */
  method Tick(games: seq<Game>, countdown: int, outcomes: seq<seq<Attempt>>)
    returns (next: int, updated: bool, trace: seq<Event>)
    requires 0 <= countdown <= UpdateInterval
    requires UniqueIds(games)
    requires |outcomes| == |games|
    requires forall i :: 0 <= i < |outcomes| ==> |outcomes[i]| == MaxAttempts
    modifies games
    ensures updated <==> countdown == 0
    ensures next == NextCountdown(countdown)
    ensures forall i :: 0 <= i < |games| ==>
      games[i].state == (if old(Active(games[i].state)) then Some(FinalState(outcomes[i])) else old(games[i].state))
    ensures forall i :: 0 <= i < |games| ==>
      games[i].name == old(games[i].name) && games[i].platform == old(games[i].platform)
      && games[i].progress == old(games[i].progress)
    ensures forall i :: 0 <= i < |games| ==> (games[i].Valid() <==> old(games[i].Valid()))
    ensures trace == old(TickTrace(games, outcomes))
  {
    next := countdown;
    updated := false;
    if next == 0 {
      // update() is an empty stub.
      updated := true;
      next := UpdateInterval;
    }
    trace := [];
    var i := 0;
    while i < |games|
      invariant 0 <= i <= |games|
      invariant forall j :: 0 <= j < |games| ==>
        games[j].state == (if j < i && old(Active(games[j].state)) then Some(FinalState(outcomes[j])) else old(games[j].state))
      invariant forall j :: 0 <= j < |games| ==>
        games[j].name == old(games[j].name) && games[j].platform == old(games[j].platform)
        && games[j].progress == old(games[j].progress)
      invariant trace == old(TickTrace(games[..i], outcomes[..i]))
    {
      var game := games[i];
      forall j | 0 <= j < |games| && j != i
        ensures games[j] != game
      {
        UniqueIdsDistinct(games, i, j);
      }
      assert games[..i + 1][..i] == games[..i];
      assert outcomes[..i + 1][..i] == outcomes[..i];
      if Active(game.state) {
        var t := Download(game, outcomes[i]);
        trace := trace + t;
      }
      i := i + 1;
    }
    assert games[..i] == games && outcomes[..i] == outcomes;
    next := next - 1;
  }
}
