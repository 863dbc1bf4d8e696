/** A Run document with its embedded pokemon entries and comments, and the rules
    each route applies to one loaded Run: what the new document is, or which
    failure the route ends in. */
module RunDocs {
  import opened Values
  import opened Filters

  /** How a route ends without saving anything. */
  datatype Failure =
    | NotFound   // the route itself reports that no run has the id
    | Rejected   // the route's allow-list check refuses the body (HTTP 400)
    | Crashed    // an exception: a property read on a missing run or game, or `forEach` on a non-array

  datatype Result<+T> = Ok(value: T) | Fail(failure: Failure)

  /** An embedded pokemon entry. The four fields are whatever the body carried,
      None where it carried nothing (`undefined`). */
  datatype PokemonEntry = PokemonEntry(
    id: Id,
    pokemon: Option<Value>,
    starter: Option<Value>,
    nickname: Option<Value>,
    status: Option<Value>)

  datatype Comment = Comment(id: Id, user: Option<Value>, message: Option<Value>, posted: Option<Value>)

  datatype Run = Run(
    id: Id,
    user: string,
    game: string,
    variation: Option<Value>,
    completed: Option<Value>,
    runNotes: Option<Value>,
    randomized: Option<Value>,
    pokemon: seq<PokemonEntry>,
    comments: seq<Comment>)

  function PokemonId(e: PokemonEntry): Id { e.id }

  function CommentId(c: Comment): Id { c.id }

  /** The value `poke.starter = false` stores. */
  const NotStarter: Option<Value> := Some(Bool(false))

  /** An entry counts as the starter when its flag is the boolean true. */
  predicate IsStarter(e: PokemonEntry)
  {
    IsTrue(e.starter)
  }

  predicate AtMostOneStarter(ps: seq<PokemonEntry>)
  {
    forall i, j | 0 <= i < |ps| && 0 <= j < |ps| && IsStarter(ps[i]) && IsStarter(ps[j]) :: i == j
  }

  predicate UniqueIds(ps: seq<PokemonEntry>)
  {
    forall i, j | 0 <= i < |ps| && 0 <= j < |ps| && ps[i].id == ps[j].id :: i == j
  }

  predicate IdsBelow(ps: seq<PokemonEntry>, bound: Id)
  {
    forall i | 0 <= i < |ps| :: ps[i].id < bound
  }

  /** What every stored run keeps: at most one starter, distinct entry ids, and
      entry ids all drawn before `bound`, the next id the store will hand out. */
  predicate WellFormed(run: Run, bound: Id)
  {
    AtMostOneStarter(run.pokemon) && UniqueIds(run.pokemon) && IdsBelow(run.pokemon, bound)
  }

  /** `run.pokemon.forEach(poke => { poke.starter = false })` */
  function Unstarred(ps: seq<PokemonEntry>): (r: seq<PokemonEntry>)
    ensures |r| == |ps|
    ensures forall i | 0 <= i < |ps| :: r[i].starter == NotStarter && r[i].(starter := ps[i].starter) == ps[i]
  {
    if ps == [] then [] else [ps[0].(starter := NotStarter)] + Unstarred(ps[1..])
  }

  // ---------------------------------------------------------------- addPokemon

  /** The entry addPokemon builds from the body, with the id the store assigns. */
  function NewEntry(body: Body, id: Id): PokemonEntry
  {
    PokemonEntry(id, Field(body, "pokemon"), Field(body, "starter"), Field(body, "nickname"), Field(body, "status"))
  }

  /** addPokemon: clear every starter when the new entry's flag is `=== true`, then append it. */
  function AddPokemonResult(run: Option<Run>, body: Body, newId: Id): (r: Result<Run>)
    ensures run.None? <==> r.Fail?
    ensures r.Fail? ==> r.failure == NotFound
    ensures r.Ok? ==> r.value == run.value.(pokemon := r.value.pokemon)
    ensures r.Ok? ==> |r.value.pokemon| == |run.value.pokemon| + 1
    ensures r.Ok? ==> r.value.pokemon[|run.value.pokemon|] == NewEntry(body, newId)
    ensures r.Ok? ==> forall i | 0 <= i < |run.value.pokemon| ::
      && r.value.pokemon[i].(starter := run.value.pokemon[i].starter) == run.value.pokemon[i]
      && r.value.pokemon[i].starter == (if IsTrue(Field(body, "starter")) then NotStarter else run.value.pokemon[i].starter)
  {
    match run
    case None => Fail(NotFound)
    case Some(run) =>
      var entry := NewEntry(body, newId);
      var kept := if IsStarter(entry) then Unstarred(run.pokemon) else run.pokemon;
      Ok(run.(pokemon := kept + [entry]))
  }

  /** After adding a starter, the new last entry is the only starter. */
  lemma AddedStarterIsOnlyStarter(run: Run, body: Body, newId: Id)
    requires IsTrue(Field(body, "starter"))
    ensures var r := AddPokemonResult(Some(run), body, newId);
      r.Ok? && forall i | 0 <= i < |r.value.pokemon| :: IsStarter(r.value.pokemon[i]) <==> i == |run.pokemon|
  {
  }

  /** addPokemon keeps a run well formed when the new id is the next one the store hands out. */
  lemma AddPokemonKeepsWellFormed(run: Run, body: Body, bound: Id)
    requires WellFormed(run, bound)
    ensures var r := AddPokemonResult(Some(run), body, bound);
      r.Ok? && WellFormed(r.value, bound + 1)
  {
    var r := AddPokemonResult(Some(run), body, bound);
    var ps, qs := run.pokemon, r.value.pokemon;
    var n := |ps|;
    forall i, j | 0 <= i < |qs| && 0 <= j < |qs| && IsStarter(qs[i]) && IsStarter(qs[j])
      ensures i == j
    {
      if i < n && j < n {
        assert IsStarter(ps[i]) && IsStarter(ps[j]);
      }
    }
    forall i, j | 0 <= i < |qs| && 0 <= j < |qs| && qs[i].id == qs[j].id
      ensures i == j
    {
      if i < n && j < n {
        assert ps[i].id == ps[j].id;
      }
    }
  }

  // ---------------------------------------------------------------- editPokemon

  const EditableKeys: set<string> := {"pokemon", "starter", "nickname", "status", "_id"}

  /** The matched entry after editPokemon: all four fields taken from the body,
      absent ones becoming `undefined`. */
  function Overwritten(e: PokemonEntry, body: Body): PokemonEntry
  {
    e.(pokemon := Field(body, "pokemon"), starter := Field(body, "starter"),
       status := Field(body, "status"), nickname := Field(body, "nickname"))
  }

  /** The second `forEach` of editPokemon: overwrite every entry whose id is pokeId. */
  function Retagged(ps: seq<PokemonEntry>, pokeId: Id, body: Body): (r: seq<PokemonEntry>)
    ensures |r| == |ps|
    ensures forall i | 0 <= i < |ps| :: ps[i].id == pokeId ==> r[i] == Overwritten(ps[i], body)
    ensures forall i | 0 <= i < |ps| :: ps[i].id != pokeId ==> r[i] == ps[i]
  {
    if ps == [] then []
    else [if ps[0].id == pokeId then Overwritten(ps[0], body) else ps[0]] + Retagged(ps[1..], pokeId, body)
  }

  /** editPokemon: reject the whole request when a body key is outside the
      allow-list or the run is missing; otherwise clear every starter when the
      body's flag is `=== true`, then overwrite the matching entries. */
  function EditPokemonResult(run: Option<Run>, pokeId: Id, body: Body): (r: Result<Run>)
    ensures r.Fail? <==> !KeysAllowed(body, EditableKeys) || run.None?
    ensures r.Fail? ==> r.failure == Rejected
    ensures r.Ok? ==> r.value == run.value.(pokemon := r.value.pokemon)
    ensures r.Ok? ==> |r.value.pokemon| == |run.value.pokemon|
    ensures r.Ok? ==> forall i | 0 <= i < |run.value.pokemon| ::
      && r.value.pokemon[i].id == run.value.pokemon[i].id
      && (run.value.pokemon[i].id == pokeId ==>
            r.value.pokemon[i] == PokemonEntry(pokeId, Field(body, "pokemon"), Field(body, "starter"),
                                              Field(body, "nickname"), Field(body, "status")))
      && (run.value.pokemon[i].id != pokeId ==>
            r.value.pokemon[i].(starter := run.value.pokemon[i].starter) == run.value.pokemon[i] &&
            r.value.pokemon[i].starter == (if IsTrue(Field(body, "starter")) then NotStarter else run.value.pokemon[i].starter))
  {
    if !KeysAllowed(body, EditableKeys) || run.None? then Fail(Rejected)
    else
      var ps := run.value.pokemon;
      var cleared := if IsTrue(Field(body, "starter")) then Unstarred(ps) else ps;
      Ok(run.value.(pokemon := Retagged(cleared, pokeId, body)))
  }

  /** An id that matches nothing changes no entry, apart from the blanket
      clearing of starters, and the edit still succeeds. */
  lemma EditUnmatchedOnlyClears(run: Run, pokeId: Id, body: Body)
    requires KeysAllowed(body, EditableKeys)
    requires forall i | 0 <= i < |run.pokemon| :: run.pokemon[i].id != pokeId
    ensures var r := EditPokemonResult(Some(run), pokeId, body);
      r.Ok? && r.value.pokemon == if IsTrue(Field(body, "starter")) then Unstarred(run.pokemon) else run.pokemon
  {
  }

  /** Editing with a starter flag of `true` leaves exactly the matched entries as starters. */
  lemma EditStarterIsMatched(run: Run, pokeId: Id, body: Body)
    requires KeysAllowed(body, EditableKeys)
    requires IsTrue(Field(body, "starter"))
    ensures var r := EditPokemonResult(Some(run), pokeId, body);
      r.Ok? && forall i | 0 <= i < |r.value.pokemon| :: IsStarter(r.value.pokemon[i]) <==> r.value.pokemon[i].id == pokeId
  {
  }

  /** editPokemon keeps a run well formed: ids never change, and a new starter
      can only be the one entry carrying pokeId. */
  lemma EditPokemonKeepsWellFormed(run: Run, pokeId: Id, body: Body, bound: Id)
    requires WellFormed(run, bound)
    ensures var r := EditPokemonResult(Some(run), pokeId, body);
      r.Ok? ==> WellFormed(r.value, bound)
  {
    var r := EditPokemonResult(Some(run), pokeId, body);
    if r.Ok? {
      var ps, qs := run.pokemon, r.value.pokemon;
      forall i, j | 0 <= i < |qs| && 0 <= j < |qs| && IsStarter(qs[i]) && IsStarter(qs[j])
        ensures i == j
      {
        if IsTrue(Field(body, "starter")) {
          assert ps[i].id == pokeId && ps[j].id == pokeId;
        } else {
          assert IsStarter(ps[i]) && IsStarter(ps[j]);
        }
      }
      forall i, j | 0 <= i < |qs| && 0 <= j < |qs| && qs[i].id == qs[j].id
        ensures i == j
      {
        assert ps[i].id == ps[j].id;
      }
    }
  }

  // ---------------------------------------------------------------- updateRun

  const PatchableKeys: set<string> := {"completed", "pokemon", "variation", "_id", "runNotes", "randomized"}

  /** The entries `req.body.pokemon.forEach(pkmn => run.pokemon.push({ pokemon: pkmn }))`
      appends: species only, ids handed out from firstId on. */
  function SpeciesEntries(names: seq<Value>, firstId: Id): seq<PokemonEntry>
  {
    seq(|names|, i requires 0 <= i < |names| => PokemonEntry(firstId + i, Some(names[i]), None, None, None))
  }

  /** The species names a body's `pokemon` key supplies: none when the key is absent. */
  function Names(body: Body): seq<Value>
  {
    if "pokemon" in body && body["pokemon"].Arr? then body["pokemon"].items else []
  }

  /** `run[key] = req.body[key]` for a key among those already handled. */
  function Assigned(current: Option<Value>, body: Body, key: string, handled: set<string>): Option<Value>
  {
    if key in handled && key in body then Some(body[key]) else current
  }

  /** The run once the keys in `handled` have been applied, in any order: each
      key touches its own field, so the order of `Object.keys` does not matter.
      The `_id` key writes back the id the run was found by, and so changes nothing. */
  function PatchedBy(run: Run, body: Body, handled: set<string>, firstId: Id): Run
  {
    run.(variation := Assigned(run.variation, body, "variation", handled),
         completed := Assigned(run.completed, body, "completed", handled),
         runNotes := Assigned(run.runNotes, body, "runNotes", handled),
         randomized := Assigned(run.randomized, body, "randomized", handled),
         pokemon := run.pokemon + if "pokemon" in handled then SpeciesEntries(Names(body), firstId) else [])
  }

  /** updateRun: reject a body with a key outside the allow-list; with a missing
      run or a `pokemon` value that is not an array the `forEach` throws;
      otherwise append the named species and replace the other fields. */
  function UpdateRunResult(run: Option<Run>, body: Body, firstId: Id): (r: Result<Run>)
    ensures !KeysAllowed(body, PatchableKeys) ==> r == Fail(Rejected)
    ensures KeysAllowed(body, PatchableKeys) && run.None? ==> r == Fail(Crashed)
    ensures KeysAllowed(body, PatchableKeys) && "pokemon" in body && !body["pokemon"].Arr? ==> r == Fail(Crashed)
    ensures r.Ok? <==> KeysAllowed(body, PatchableKeys) && run.Some? && ("pokemon" in body ==> body["pokemon"].Arr?)
    ensures r.Ok? ==> && r.value.id == run.value.id && r.value.user == run.value.user
                      && r.value.game == run.value.game && r.value.comments == run.value.comments
    ensures r.Ok? ==> && r.value.variation == (if "variation" in body then Some(body["variation"]) else run.value.variation)
                      && r.value.completed == (if "completed" in body then Some(body["completed"]) else run.value.completed)
                      && r.value.runNotes == (if "runNotes" in body then Some(body["runNotes"]) else run.value.runNotes)
                      && r.value.randomized == (if "randomized" in body then Some(body["randomized"]) else run.value.randomized)
    ensures r.Ok? ==> |r.value.pokemon| == |run.value.pokemon| + |Names(body)|
    ensures r.Ok? ==> r.value.pokemon[..|run.value.pokemon|] == run.value.pokemon
    ensures r.Ok? ==> forall k | 0 <= k < |Names(body)| ::
      r.value.pokemon[|run.value.pokemon| + k] == PokemonEntry(firstId + k, Some(Names(body)[k]), None, None, None)
  {
    if !KeysAllowed(body, PatchableKeys) then Fail(Rejected)
    else if run.None? then Fail(Crashed)
    else if "pokemon" in body && !body["pokemon"].Arr? then Fail(Crashed)
    else Ok(PatchedBy(run.value, body, body.Keys, firstId))
  }

  /** updateRun keeps a run well formed when the appended ids are the next ones the store hands out. */
  lemma UpdateRunKeepsWellFormed(run: Run, body: Body, bound: Id)
    requires WellFormed(run, bound)
    ensures var r := UpdateRunResult(Some(run), body, bound);
      r.Ok? ==> WellFormed(r.value, bound + |Names(body)|)
  {
    var r := UpdateRunResult(Some(run), body, bound);
    if r.Ok? {
      var ps, qs := run.pokemon, r.value.pokemon;
      var n := |ps|;
      assert forall i | 0 <= i < n :: qs[i] == ps[i] by {
        assert qs[..n] == ps;
      }
      forall i, j | 0 <= i < |qs| && 0 <= j < |qs| && IsStarter(qs[i]) && IsStarter(qs[j])
        ensures i == j
      {
        assert i < n && j < n;
      }
      forall i, j | 0 <= i < |qs| && 0 <= j < |qs| && qs[i].id == qs[j].id
        ensures i == j
      {
        if i < n && j < n {
          assert ps[i].id == ps[j].id;
        }
      }
    }
  }

  // ---------------------------------------------------------------- comments

  /** newComment: append `{ user: body.username, message, posted }`; a missing run throws. */
  function NewCommentResult(run: Option<Run>, body: Body, newId: Id): (r: Result<Run>)
    ensures run.None? <==> r.Fail?
    ensures r.Fail? ==> r.failure == Crashed
    ensures r.Ok? ==> r.value == run.value.(comments := r.value.comments)
    ensures r.Ok? ==> |r.value.comments| == |run.value.comments| + 1
    ensures r.Ok? ==> r.value.comments[..|run.value.comments|] == run.value.comments
    ensures r.Ok? ==>
      r.value.comments[|run.value.comments|] == Comment(newId, Field(body, "username"), Field(body, "message"), Field(body, "posted"))
  {
    match run
    case None => Fail(Crashed)
    case Some(run) =>
      Ok(run.(comments := run.comments + [Comment(newId, Field(body, "username"), Field(body, "message"), Field(body, "posted"))]))
  }

  /** deleteComment: keep the comments whose id differs; a missing run throws. */
  function DeleteCommentResult(run: Option<Run>, commentId: Id): (r: Result<Run>)
    ensures run.None? <==> r.Fail?
    ensures r.Fail? ==> r.failure == Crashed
    ensures r.Ok? ==> r.value == run.value.(comments := r.value.comments)
    ensures r.Ok? ==> forall c :: c in r.value.comments <==> c in run.value.comments && c.id != commentId
    ensures r.Ok? ==> r.value.comments == Without(run.value.comments, CommentId, commentId)
  {
    match run
    case None => Fail(Crashed)
    case Some(run) => Ok(run.(comments := Without(run.comments, CommentId, commentId)))
  }

  /** deletePokemon: keep the entries whose id differs; a missing run throws. */
  function DeletePokemonResult(run: Option<Run>, pokeId: Id): (r: Result<Run>)
    ensures run.None? <==> r.Fail?
    ensures r.Fail? ==> r.failure == Crashed
    ensures r.Ok? ==> r.value == run.value.(pokemon := r.value.pokemon)
    ensures r.Ok? ==> forall e :: e in r.value.pokemon <==> e in run.value.pokemon && e.id != pokeId
    ensures r.Ok? ==> r.value.pokemon == Without(run.value.pokemon, PokemonId, pokeId)
  {
    match run
    case None => Fail(Crashed)
    case Some(run) => Ok(run.(pokemon := Without(run.pokemon, PokemonId, pokeId)))
  }

  /** At most one starter in `[x] + tail`: at most one in the tail, and none there when x is one. */
  lemma ConsStarters(x: PokemonEntry, tail: seq<PokemonEntry>)
    requires AtMostOneStarter(tail)
    requires IsStarter(x) ==> forall k | 0 <= k < |tail| :: !IsStarter(tail[k])
    ensures AtMostOneStarter([x] + tail)
  {
    var s := [x] + tail;
    forall i, j | 0 <= i < |s| && 0 <= j < |s| && IsStarter(s[i]) && IsStarter(s[j])
      ensures i == j
    {
      if 0 < i && 0 < j {
        assert s[i] == tail[i - 1] && s[j] == tail[j - 1];
      }
    }
  }

  /** Distinct ids in `[x] + tail`: distinct in the tail, and none there equal to x's. */
  lemma ConsIds(x: PokemonEntry, tail: seq<PokemonEntry>)
    requires UniqueIds(tail)
    requires forall k | 0 <= k < |tail| :: tail[k].id != x.id
    ensures UniqueIds([x] + tail)
  {
    var s := [x] + tail;
    forall i, j | 0 <= i < |s| && 0 <= j < |s| && s[i].id == s[j].id
      ensures i == j
    {
      if 0 < i && 0 < j {
        assert s[i] == tail[i - 1] && s[j] == tail[j - 1];
      }
    }
  }

  /** The tail of a well-formed list is well formed, and its head is apart from the tail. */
  lemma TailWellFormed(ps: seq<PokemonEntry>, bound: Id)
    requires ps != []
    requires AtMostOneStarter(ps) && UniqueIds(ps) && IdsBelow(ps, bound)
    ensures AtMostOneStarter(ps[1..]) && UniqueIds(ps[1..]) && IdsBelow(ps[1..], bound)
    ensures ps[0].id < bound
    ensures forall k | 0 <= k < |ps| - 1 :: ps[1..][k].id != ps[0].id
    ensures IsStarter(ps[0]) ==> forall k | 0 <= k < |ps| - 1 :: !IsStarter(ps[1..][k])
  {
    var tail := ps[1..];
    forall i, j | 0 <= i < |tail| && 0 <= j < |tail| && IsStarter(tail[i]) && IsStarter(tail[j])
      ensures i == j
    {
      assert IsStarter(ps[i + 1]) && IsStarter(ps[j + 1]);
    }
    forall i, j | 0 <= i < |tail| && 0 <= j < |tail| && tail[i].id == tail[j].id
      ensures i == j
    {
      assert ps[i + 1].id == ps[j + 1].id;
    }
    forall k | 0 <= k < |tail| ensures tail[k].id != ps[0].id && (IsStarter(ps[0]) ==> !IsStarter(tail[k])) {
      assert tail[k] == ps[k + 1];
    }
  }

  /** Dropping entries from a well-formed list leaves it well formed. */
  lemma {:induction false} WithoutKeepsWellFormed(ps: seq<PokemonEntry>, pokeId: Id, bound: Id)
    requires AtMostOneStarter(ps) && UniqueIds(ps) && IdsBelow(ps, bound)
    ensures var qs := Without(ps, PokemonId, pokeId);
      AtMostOneStarter(qs) && UniqueIds(qs) && IdsBelow(qs, bound)
  {
    if ps != [] {
      var tail := ps[1..];
      TailWellFormed(ps, bound);
      WithoutKeepsWellFormed(tail, pokeId, bound);
      var rest := Without(tail, PokemonId, pokeId);
      if ps[0].id != pokeId {
        forall k | 0 <= k < |rest| ensures rest[k].id != ps[0].id && (IsStarter(ps[0]) ==> !IsStarter(rest[k])) {
          assert rest[k] in tail;
        }
        ConsStarters(ps[0], rest);
        ConsIds(ps[0], rest);
        var qs := [ps[0]] + rest;
        forall i | 0 <= i < |qs| ensures qs[i].id < bound {
          if 0 < i { assert qs[i] == rest[i - 1]; }
        }
      }
    }
  }
}
