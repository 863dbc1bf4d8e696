/** The route handlers of the runs router. Each loads a snapshot of one Run (or
    none), changes it step by step as the handler does, and saves it back; the
    create and delete routes also move a Game's counter. The store is a class
    whose fields the handlers update in place. */
module Routes {
  import opened Values
  import opened Filters
  import opened RunDocs
  import opened RunStore

  /** `ps.forEach(poke => { poke.starter = false })` */
  method ClearStarters(ps: seq<PokemonEntry>) returns (cleared: seq<PokemonEntry>)
    ensures cleared == Unstarred(ps)
  {
    cleared := ps;
    var i := 0;
    while i < |cleared|
      invariant 0 <= i <= |cleared| == |ps|
      invariant forall k | 0 <= k < i :: cleared[k] == ps[k].(starter := NotStarter)
      invariant forall k | i <= k < |cleared| :: cleared[k] == ps[k]
    {
      cleared := cleared[i := cleared[i].(starter := NotStarter)];
      i := i + 1;
    }
  }

  /** `ps.forEach(poke => { if (poke._id == pokeId) { ...four fields from the body... } })` */
  method OverwriteMatching(ps: seq<PokemonEntry>, pokeId: Id, body: Body) returns (edited: seq<PokemonEntry>)
    ensures edited == Retagged(ps, pokeId, body)
  {
    edited := ps;
    var i := 0;
    while i < |edited|
      invariant 0 <= i <= |edited| == |ps|
      invariant forall k | 0 <= k < i :: edited[k] == if ps[k].id == pokeId then Overwritten(ps[k], body) else ps[k]
      invariant forall k | i <= k < |edited| :: edited[k] == ps[k]
    {
      if edited[i].id == pokeId {
        edited := edited[i := Overwritten(edited[i], body)];
      }
      i := i + 1;
    }
  }

  /** `names.forEach(pkmn => run.pokemon.push({ pokemon: pkmn }))`, each push
      drawing the next fresh id. */
  method PushSpecies(ps: seq<PokemonEntry>, names: seq<Value>, firstId: Id) returns (grown: seq<PokemonEntry>)
    ensures grown == ps + SpeciesEntries(names, firstId)
  {
    grown := ps;
    var j := 0;
    while j < |names|
      invariant 0 <= j <= |names|
      invariant grown == ps + SpeciesEntries(names[..j], firstId)
    {
      assert SpeciesEntries(names[..j + 1], firstId) ==
        SpeciesEntries(names[..j], firstId) + [PokemonEntry(firstId + j, Some(names[j]), None, None, None)];
      grown := grown + [PokemonEntry(firstId + j, Some(names[j]), None, None, None)];
      j := j + 1;
    }
    assert names[..j] == names;
  }

  /** `updates.forEach(update => ...)` of updateRun, once the keys have passed the
      allow-list: a `pokemon` key pushes one species-only entry per name, every
      other key is `run[update] = req.body[update]`. The keys are taken in
      whatever order `Object.keys` yields them, and the result is the same. */
  method PatchRun(start: Run, body: Body, firstId: Id) returns (patched: Result<Run>)
    requires KeysAllowed(body, PatchableKeys)
    ensures patched == UpdateRunResult(Some(start), body, firstId)
  {
    var run := start;
    var pending := body.Keys;
    while pending != {}
      invariant pending <= body.Keys
      invariant "pokemon" in body.Keys - pending ==> body["pokemon"].Arr?
      invariant run == PatchedBy(start, body, body.Keys - pending, firstId)
      decreases pending
    {
      var key :| key in pending;
      ghost var handled := body.Keys - pending;
      if key == "pokemon" {
        var names := body[key];
        if !names.Arr? {
          return Fail(Crashed);   // `forEach` is not a function of a non-array
        }
        var grown := PushSpecies(run.pokemon, names.items, firstId);
        run := run.(pokemon := grown);
      } else if key == "variation" {
        run := run.(variation := Some(body[key]));
      } else if key == "completed" {
        run := run.(completed := Some(body[key]));
      } else if key == "runNotes" {
        run := run.(runNotes := Some(body[key]));
      } else if key == "randomized" {
        run := run.(randomized := Some(body[key]));
      }
      // `_id`: writes back the id the run was found by
      assert run == PatchedBy(start, body, handled + {key}, firstId);
      pending := pending - {key};
    }
    assert body.Keys - pending == body.Keys;
    patched := Ok(run);
  }

  class Store {
    var runs: map<Id, Run>
    var games: map<string, int>
    var nextId: Id

    function State(): Db
      reads this
    {
      Db(runs, games, nextId)
    }

    ghost predicate Valid()
      reads this
    {
      Consistent(State())
    }

    /** An empty Run collection and one Game per code, each with no runs yet. */
    constructor (codes: set<string>)
      ensures Valid()
      ensures runs == map[] && nextId == 0
      ensures games == map code | code in codes :: 0
    {
      runs := map[];
      games := map code | code in codes :: 0;
      nextId := 0;
    }

    /** GET /runPokemon/:runId/:pokemonId */
    function RunPokemon(runId: Id, pokeId: Id): (r: Result<seq<PokemonEntry>>)
      reads this
      ensures r.Ok? <==> runId in runs
      ensures r.Fail? ==> r.failure == Crashed
      ensures r.Ok? ==> forall e :: e in r.value <==> e in runs[runId].pokemon && e.id == pokeId
      ensures r.Ok? ==> r.value == WithId(runs[runId].pokemon, PokemonId, pokeId)
    {
      if runId in runs then Ok(WithId(runs[runId].pokemon, PokemonId, pokeId)) else Fail(Crashed)
    }

    /** POST /newRun */
    method NewRun(draft: RunDraft) returns (reply: Result<Run>)
      requires Valid()
      modifies this
      ensures Valid()
      ensures Step(State(), reply) == NewRunStep(old(State()), draft)
    {
      NewRunKeepsConsistent(State(), draft);
      var run := Fresh(draft, nextId);
      runs := runs[nextId := run];
      nextId := nextId + 1;
      if run.game !in games {
        reply := Fail(Crashed);   // `game.runs++` on a null game throws
        return;
      }
      games := games[run.game := games[run.game] + 1];
      reply := Ok(run);
    }

    /** POST /newComment */
    method NewComment(runId: Id, body: Body) returns (reply: Result<Run>)
      requires Valid()
      modifies this
      ensures Valid()
      ensures reply == NewCommentResult(Find(old(runs), runId), body, old(nextId))
      ensures State() == Commit(old(State()), runId, reply, 1)
    {
      if runId !in runs {
        reply := Fail(Crashed);   // `run.comments` of a null run throws
        return;
      }
      var run := runs[runId];
      run := run.(comments := run.comments + [Comment(nextId, Field(body, "username"), Field(body, "message"), Field(body, "posted"))]);
      reply := Ok(run);
      CommitKeepsConsistent(State(), runId, reply, 1);
      runs := runs[runId := run];
      nextId := nextId + 1;
    }

    /** DELETE /deleteComment */
    method DeleteComment(runId: Id, commentId: Id) returns (reply: Result<Run>)
      requires Valid()
      modifies this
      ensures Valid()
      ensures reply == DeleteCommentResult(Find(old(runs), runId), commentId)
      ensures State() == Commit(old(State()), runId, reply, 0)
    {
      if runId !in runs {
        reply := Fail(Crashed);
        return;
      }
      var run := runs[runId];
      run := run.(comments := Without(run.comments, CommentId, commentId));
      reply := Ok(run);
      CommitKeepsConsistent(State(), runId, reply, 0);
      runs := runs[runId := run];
    }

    /** POST /addPokemon/:runId */
    method AddPokemon(runId: Id, body: Body) returns (reply: Result<Run>)
      requires Valid()
      modifies this
      ensures Valid()
      ensures reply == AddPokemonResult(Find(old(runs), runId), body, old(nextId))
      ensures State() == Commit(old(State()), runId, reply, 1)
    {
      if runId !in runs {
        reply := Fail(NotFound);   // 404 is sent; the fall-through then throws on `run.pokemon`
        return;
      }
      var run := runs[runId];
      var entry := NewEntry(body, nextId);
      var ps := run.pokemon;
      if IsTrue(entry.starter) {
        ps := ClearStarters(ps);
      }
      ps := ps + [entry];
      run := run.(pokemon := ps);
      reply := Ok(run);
      AddPokemonKeepsWellFormed(runs[runId], body, nextId);
      CommitKeepsConsistent(State(), runId, reply, 1);
      runs := runs[runId := run];
      nextId := nextId + 1;
    }

    /** DELETE /delete */
    method Delete(runId: Id) returns (reply: Result<Run>)
      requires Valid()
      modifies this
      ensures Valid()
      ensures Step(State(), reply) == DeleteStep(old(State()), runId)
    {
      DeleteKeepsConsistent(State(), runId);
      if runId !in runs {
        reply := Fail(NotFound);   // the route answers 500 with an empty body
        return;
      }
      var run := runs[runId];
      runs := runs - {runId};
      if run.game !in games {
        reply := Fail(Crashed);   // `game.runs--` on a null game throws
        return;
      }
      games := games[run.game := games[run.game] - 1];
      reply := Ok(run);
    }

    /** DELETE /:run/pokemon/:poke */
    method DeletePokemon(runId: Id, pokeId: Id) returns (reply: Result<Run>)
      requires Valid()
      modifies this
      ensures Valid()
      ensures reply == DeletePokemonResult(Find(old(runs), runId), pokeId)
      ensures State() == Commit(old(State()), runId, reply, 0)
    {
      if runId !in runs {
        reply := Fail(Crashed);
        return;
      }
      var run := runs[runId];
      WithoutKeepsWellFormed(run.pokemon, pokeId, nextId);
      run := run.(pokemon := Without(run.pokemon, PokemonId, pokeId));
      reply := Ok(run);
      CommitKeepsConsistent(State(), runId, reply, 0);
      runs := runs[runId := run];
    }

    /** PATCH /editPokemon/:runId/:pokeId */
    method EditPokemon(runId: Id, pokeId: Id, body: Body) returns (reply: Result<Run>)
      requires Valid()
      modifies this
      ensures Valid()
      ensures reply == EditPokemonResult(Find(old(runs), runId), pokeId, body)
      ensures State() == Commit(old(State()), runId, reply, 0)
    {
      if !KeysAllowed(body, EditableKeys) || runId !in runs {
        reply := Fail(Rejected);
        return;
      }
      var run := runs[runId];
      var ps := run.pokemon;
      if IsTrue(Field(body, "starter")) {
        ps := ClearStarters(ps);
      }
      ps := OverwriteMatching(ps, pokeId, body);
      run := run.(pokemon := ps);
      reply := Ok(run);
      EditPokemonKeepsWellFormed(runs[runId], pokeId, body, nextId);
      CommitKeepsConsistent(State(), runId, reply, 0);
      runs := runs[runId := run];
    }

    /** PATCH /updateRun. `runId` is the run the body's `_id` names. */
    method UpdateRun(runId: Id, body: Body) returns (reply: Result<Run>)
      requires Valid()
      modifies this
      ensures Valid()
      ensures reply == UpdateRunResult(Find(old(runs), runId), body, old(nextId))
      ensures State() == Commit(old(State()), runId, reply, |Names(body)|)
    {
      if !KeysAllowed(body, PatchableKeys) {
        reply := Fail(Rejected);
        return;
      }
      if runId !in runs {
        reply := Fail(Crashed);   // the first key, or `run.save()`, dereferences the null run
        return;
      }
      reply := PatchRun(runs[runId], body, nextId);
      if reply.Ok? {
        UpdateRunKeepsWellFormed(runs[runId], body, nextId);
        CommitKeepsConsistent(State(), runId, reply, |Names(body)|);
        runs := runs[runId := reply.value];
        nextId := nextId + |Names(body)|;
      }
    }
  }
}
