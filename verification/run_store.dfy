/** The stored state the routes read and write: every Run by id, every Game's
    `runs` counter by game code, and the next fresh id. Creating and deleting a
    run are the two steps that also move a Game's counter. */
module RunStore {
  import opened Values
  import opened RunDocs

  /** What `new Run(req.body)` builds: the fields a new run starts with. */
  datatype RunDraft = RunDraft(
    user: string,
    game: string,
    variation: Option<Value>,
    completed: Option<Value>,
    runNotes: Option<Value>,
    randomized: Option<Value>)

  /** `runs` holds the Run collection; `games` maps each Game's gameCode to its
      `runs` counter; `nextId` stands for the store's ObjectId generator. */
  datatype Db = Db(runs: map<Id, Run>, games: map<string, int>, nextId: Id)

  /** The store after a route, and what the route answers. */
  datatype Step = Step(db: Db, reply: Result<Run>)

  /** `Run.findById(id)`: the run, or None (`null`). */
  function Find(runs: map<Id, Run>, id: Id): Option<Run>
  {
    if id in runs then Some(runs[id]) else None
  }

  /** The live runs that reference a game code. */
  function RunsOf(runs: map<Id, Run>, code: string): set<Id>
  {
    set id | id in runs && runs[id].game == code
  }

  /** Every Game's counter equals the number of live runs referencing its code. */
  predicate CountsMatch(db: Db)
  {
    forall code | code in db.games :: db.games[code] == |RunsOf(db.runs, code)|
  }

  /** The store invariant: counters match, each run is filed under its own id,
      every id in use was handed out before `nextId`, and every run is well formed. */
  predicate Consistent(db: Db)
  {
    && CountsMatch(db)
    && forall id | id in db.runs :: db.runs[id].id == id && id < db.nextId && WellFormed(db.runs[id], db.nextId)
  }

  /** `run.save()` of a route that edits one loaded run: a success replaces the
      run and consumes `used` fresh ids; a failure saves nothing. */
  function Commit(db: Db, runId: Id, reply: Result<Run>, used: nat): (r: Db)
    ensures reply.Fail? ==> r == db
    ensures reply.Ok? ==> r.runs.Keys == db.runs.Keys + {runId} && r.runs[runId] == reply.value
    ensures reply.Ok? ==> forall id | id in db.runs && id != runId :: r.runs[id] == db.runs[id]
    ensures r.games == db.games
  {
    if reply.Ok? then Db(db.runs[runId := reply.value], db.games, db.nextId + used) else db
  }

  /** A fresh run from a draft, with no pokemon and no comments. */
  function Fresh(draft: RunDraft, id: Id): Run
  {
    Run(id, draft.user, draft.game, draft.variation, draft.completed, draft.runNotes, draft.randomized, [], [])
  }

  /** newRun: save the new run, then `game.runs++` on the Game whose code is the
      run's game. With no such Game the increment throws: the run stays saved,
      the counters stay as they were, and the route fails. */
  function NewRunStep(db: Db, draft: RunDraft): (s: Step)
    ensures s.db.runs == db.runs[db.nextId := Fresh(draft, db.nextId)]
    ensures s.db.nextId == db.nextId + 1
    ensures s.reply.Ok? <==> draft.game in db.games
    ensures s.reply.Ok? ==> s.reply.value == Fresh(draft, db.nextId)
    ensures s.reply.Fail? ==> s.reply.failure == Crashed
    ensures s.db.games.Keys == db.games.Keys
    ensures forall code | code in db.games ::
      s.db.games[code] == db.games[code] + (if code == draft.game then 1 else 0)
  {
    var run := Fresh(draft, db.nextId);
    var runs := db.runs[db.nextId := run];
    if draft.game in db.games then
      Step(Db(runs, db.games[draft.game := db.games[draft.game] + 1], db.nextId + 1), Ok(run))
    else
      Step(Db(runs, db.games, db.nextId + 1), Fail(Crashed))
  }

  /** delete: `findByIdAndDelete`, then `game.runs--` on the deleted run's Game.
      A missing run is reported and nothing changes; with no such Game the
      decrement throws after the run is already gone. */
  function DeleteStep(db: Db, runId: Id): (s: Step)
    ensures runId !in db.runs ==> s == Step(db, Fail(NotFound))
    ensures runId in db.runs ==> s.db.runs == db.runs - {runId} && s.db.nextId == db.nextId
    ensures runId in db.runs ==> (s.reply.Ok? <==> db.runs[runId].game in db.games)
    ensures s.reply.Ok? ==> s.reply.value == db.runs[runId]
    ensures runId in db.runs && s.reply.Fail? ==> s.reply.failure == Crashed
    ensures s.db.games.Keys == db.games.Keys
    ensures forall code | code in db.games ::
      s.db.games[code] == db.games[code] - (if runId in db.runs && code == db.runs[runId].game then 1 else 0)
  {
    if runId !in db.runs then Step(db, Fail(NotFound))
    else
      var run := db.runs[runId];
      var runs := db.runs - {runId};
      if run.game in db.games then
        Step(Db(runs, db.games[run.game := db.games[run.game] - 1], db.nextId), Ok(run))
      else
        Step(Db(runs, db.games, db.nextId), Fail(Crashed))
  }

  /** A counter that matches the live runs is never negative. */
  lemma CountsNeverNegative(db: Db, code: string)
    requires CountsMatch(db)
    requires code in db.games
    ensures db.games[code] >= 0
  {
  }

  /** Filing a fresh run adds its id to its game's runs and to no other. */
  lemma RunsOfAdd(runs: map<Id, Run>, id: Id, run: Run, code: string)
    requires id !in runs
    ensures RunsOf(runs[id := run], code) == if run.game == code then RunsOf(runs, code) + {id} else RunsOf(runs, code)
  {
  }

  /** Removing a run removes its id from its game's runs and from no other. */
  lemma RunsOfRemove(runs: map<Id, Run>, id: Id, code: string)
    requires id in runs
    ensures RunsOf(runs - {id}, code) == if runs[id].game == code then RunsOf(runs, code) - {id} else RunsOf(runs, code)
  {
  }

  /** newRun keeps the store consistent, whether or not the Game exists. */
  lemma NewRunKeepsConsistent(db: Db, draft: RunDraft)
    requires Consistent(db)
    ensures Consistent(NewRunStep(db, draft).db)
  {
    var s := NewRunStep(db, draft);
    var id := db.nextId;
    assert id !in db.runs;
    forall code | code in s.db.games
      ensures s.db.games[code] == |RunsOf(s.db.runs, code)|
    {
      RunsOfAdd(db.runs, id, Fresh(draft, id), code);
    }
  }

  /** delete keeps the store consistent, whether or not the Game exists. */
  lemma DeleteKeepsConsistent(db: Db, runId: Id)
    requires Consistent(db)
    ensures Consistent(DeleteStep(db, runId).db)
  {
    var s := DeleteStep(db, runId);
    if runId in db.runs {
      forall code | code in s.db.games
        ensures s.db.games[code] == |RunsOf(s.db.runs, code)|
      {
        RunsOfRemove(db.runs, runId, code);
      }
    }
  }

  /** Saving a run that keeps its id and game, is well formed against the ids
      handed out so far, keeps the store consistent. */
  lemma CommitKeepsConsistent(db: Db, runId: Id, reply: Result<Run>, used: nat)
    requires Consistent(db)
    requires runId in db.runs
    requires reply.Ok? ==> && reply.value.id == runId && reply.value.game == db.runs[runId].game
                           && WellFormed(reply.value, db.nextId + used)
    ensures Consistent(Commit(db, runId, reply, used))
  {
    if reply.Ok? {
      var after := Commit(db, runId, reply, used);
      forall code | code in after.games
        ensures after.games[code] == |RunsOf(after.runs, code)|
      {
        assert RunsOf(after.runs, code) == RunsOf(db.runs, code);
      }
      forall id | id in after.runs && id != runId
        ensures WellFormed(after.runs[id], after.nextId)
      {
        assert WellFormed(db.runs[id], db.nextId);
      }
    }
  }

  /** Creating a run and then deleting it leaves every run and every counter as
      it was: the two counter moves cancel, or neither happens. */
  lemma NewThenDeleteNetZero(db: Db, draft: RunDraft)
    requires Consistent(db)
    ensures var created := NewRunStep(db, draft);
      var deleted := DeleteStep(created.db, db.nextId);
      && deleted.db == db.(nextId := db.nextId + 1)
      && (created.reply.Ok? <==> deleted.reply.Ok?)
  {
    var created := NewRunStep(db, draft);
    var deleted := DeleteStep(created.db, db.nextId);
    assert db.nextId !in db.runs;
    assert deleted.db.runs == db.runs;
    if draft.game in db.games {
      assert deleted.db.games == db.games[draft.game := db.games[draft.game]];
    }
  }
}
