# Run aggregate mutation rules of the runs router

A Dafny model of the write routes of `routes/runs.js` in the pokemon-challenges
server. A *Run* is one play-through of a game. It holds an ordered list of
pokemon entries, an ordered comment thread and a few scalar fields. A *Game*
record keeps a counter of its live runs. Each route loads one Run snapshot,
changes it, and saves it back or fails. The create and delete routes also move
the Game counter.

Files and modules:

- `values.dfy` (`Values`): JSON body values, `body.key` lookup (None for
  `undefined`), the strict `=== true` test and the allow-list test.
- `filters.dfy` (`Filters`): the `filter` expressions of deletePokemon,
  deleteComment and the runPokemon lookup, and their order, idempotence and
  partition lemmas.
- `run_docs.dfy` (`RunDocs`): the Run, PokemonEntry and Comment documents.
  Each route's effect on one loaded run is a function returning the new run or
  a `Failure`. The lemmas show that every route keeps a run *well formed*: at
  most one starter, distinct entry ids, and ids drawn before the next fresh id.
- `run_store.dfy` (`RunStore`): the stored state (runs by id, Game counters by
  gameCode, and the next fresh id, which stands for ObjectId generation). It
  holds newRun and delete as steps on that state. The invariant `Consistent`
  says that every counter equals the number of live runs with that game code.
  It is proved to survive every route, and create-then-delete is proved to net
  to zero.
- `routes.dfy` (`Routes`): the class `Store`, whose methods are the route
  handlers. They update the store's fields in place. The `forEach` loops
  become `while` loops. Each method is proved equal to the matching function
  above and to keep `Valid()`. updateRun takes the body's keys in an arbitrary
  order (`:|`), and the proof shows the result does not depend on that order.

Failures: `NotFound` when the route itself reports a missing run (addPokemon's
404, delete's 500). `Rejected` when an allow-list check refuses the body (400).
`Crashed` when the handler throws: a property read on a missing run or Game, or
`forEach` on a value that is not an array. A failure saves nothing, except where
noted below.

The model follows the code wherever it departs from the system's intended
design:

- editPokemon's allow-list is `pokemon, starter, nickname, status, _id`. A
  missing run is refused with the same 400 as a bad key, not reported as not
  found.
- addPokemon stores the body's fields as given. The nickname is not defaulted
  to the species on the server.
- updateRun with a missing run throws (500); it does not report not found.
- deletePokemon, deleteComment and newComment with a missing run throw.
- newRun saves the run before it looks up the Game. With no Game for the code,
  the run stays saved, no counter moves and the route fails. delete likewise
  removes the run before its Game lookup can fail.
- editPokemon with an id that matches no entry still clears the starters (when
  the flag is `true`), saves and succeeds.

## Model

| member | source | states |
|---|---|---|
| `Filters.Without` | routes/runs.js:138-141 | deletion keeps exactly the elements whose id differs from the given one and never grows the list |
| `Filters.WithId` | routes/runs.js:28-30 | the lookup keeps exactly the elements whose id equals the given one |
| `Filters.WithoutUnknown` | routes/runs.js:138-141 | deleting an id no element carries leaves the list unchanged |
| `Filters.WithoutIdempotent` | routes/runs.js:79-82 | deleting the same id twice equals deleting it once |
| `Filters.WithoutConcat` | routes/runs.js:138-141 | deletion distributes over concatenation, so kept elements stay in their original order |
| `Filters.WithIdConcat` | routes/runs.js:28-30 | the lookup distributes over concatenation, so selected elements come in list order |
| `Filters.SplitById` | routes/runs.js:28-30 | the elements a delete drops are, as a multiset, exactly those the lookup selects |
| `RunDocs.Unstarred` | routes/runs.js:106-108 | clearing leaves no starter and keeps every other field and the order of all entries |
| `RunDocs.AddPokemonResult` | routes/runs.js:93-118 | missing run gives NotFound with no change. Otherwise exactly one entry built from the body is appended. Earlier entries keep their order and every field but `starter`. Their `starter` becomes false if and only if the body's flag is `=== true`. Nothing else in the run changes |
| `RunDocs.AddedStarterIsOnlyStarter` | routes/runs.js:105-110 | after adding a starter, the new last entry is the only starter |
| `RunDocs.AddPokemonKeepsWellFormed` | routes/runs.js:98-110 | addPokemon keeps at most one starter and distinct entry ids |
| `RunDocs.Retagged` | routes/runs.js:169-178 | every entry with the id gets the body's four fields (absent ones undefined); every other entry is untouched; length kept |
| `RunDocs.EditPokemonResult` | routes/runs.js:153-181 | the request fails with Rejected if and only if a body key is outside the allow-list or the run is missing. Otherwise only the pokemon list changes, and its length and ids stay the same. Matched entries take the body's four fields. Other entries change only in `starter`, which is cleared exactly when the body's flag is `=== true` |
| `RunDocs.EditUnmatchedOnlyClears` | routes/runs.js:163-180 | with an id that matches nothing the edit still succeeds and only the blanket starter clearing happens |
| `RunDocs.EditStarterIsMatched` | routes/runs.js:163-178 | with a starter flag of `true`, the starters afterwards are exactly the entries carrying the edited id |
| `RunDocs.EditPokemonKeepsWellFormed` | routes/runs.js:163-178 | editPokemon keeps at most one starter and distinct entry ids when ids are distinct |
| `RunDocs.UpdateRunResult` | routes/runs.js:186-212 | a key outside the allow-list gives Rejected. Otherwise a missing run, or a `pokemon` value that is not an array, gives Crashed; it succeeds exactly when neither holds. Existing entries, comments, id, user and game are untouched. One species-only entry per name is appended, in list order, with fresh ids. Every other allowed key replaces its field, and absent keys leave theirs |
| `RunDocs.UpdateRunKeepsWellFormed` | routes/runs.js:197-203 | updateRun keeps at most one starter and distinct entry ids |
| `RunDocs.NewCommentResult` | routes/runs.js:63-74 | a missing run throws; otherwise one comment {username, message, posted} is appended and earlier comments and all other fields are unchanged |
| `RunDocs.DeleteCommentResult` | routes/runs.js:77-90 | a missing run throws. Otherwise the comments become `Filters.Without` of the old ones: exactly those whose id differs, in their original order. Nothing else changes |
| `RunDocs.DeletePokemonResult` | routes/runs.js:135-149 | a missing run throws. Otherwise the entries become `Filters.Without` of the old ones: exactly those whose id differs, in their original order. Nothing else changes |
| `RunDocs.WithoutKeepsWellFormed` | routes/runs.js:138-141 | deleting entries keeps at most one starter and distinct ids |
| `RunStore.NewRunStep` | routes/runs.js:48-60 | the new run is saved under a fresh id. The matching Game's counter goes up by exactly one and no other counter moves. With no matching Game the route fails after the save, and no counter moves |
| `RunStore.DeleteStep` | routes/runs.js:121-131 | a missing run gives NotFound with no change. Otherwise the run is removed and its Game's counter goes down by exactly one; no other counter moves |
| `RunStore.CountsNeverNegative` | routes/runs.js:127 | a counter that matches the live runs is never negative |
| `RunStore.NewRunKeepsConsistent` | routes/runs.js:48-55 | newRun keeps every counter equal to the number of live runs of its game |
| `RunStore.DeleteKeepsConsistent` | routes/runs.js:121-129 | delete keeps every counter equal to the number of live runs of its game |
| `RunStore.CommitKeepsConsistent` | routes/runs.js:111 | saving a run that keeps its id and game and stays well formed keeps the store consistent |
| `RunStore.NewThenDeleteNetZero` | routes/runs.js:48-131 | creating a run and deleting it restores every run and every counter, and the two replies agree |
| `Routes.ClearStarters` | routes/runs.js:106-108 | the in-place loop computes exactly the cleared list |
| `Routes.OverwriteMatching` | routes/runs.js:169-178 | the in-place loop computes exactly the overwritten list |
| `Routes.PushSpecies` | routes/runs.js:199 | pushing each name appends exactly the species-only entries, in order |
| `Routes.Store.RunPokemon` | routes/runs.js:26-32 | a missing run throws. Otherwise the answer is `Filters.WithId` of the run's entries: exactly those with the id, in list order |
| `Routes.Store.NewRun` | routes/runs.js:48-60 | the store and reply are those of `NewRunStep`; the store stays consistent |
| `Routes.Store.NewComment` | routes/runs.js:63-74 | the reply is `NewCommentResult` of the loaded run; saved only on success |
| `Routes.Store.DeleteComment` | routes/runs.js:77-90 | the reply is `DeleteCommentResult` of the loaded run; saved only on success |
| `Routes.Store.AddPokemon` | routes/runs.js:93-118 | the reply is `AddPokemonResult` of the loaded run; saved only on success; the store stays consistent |
| `Routes.Store.Delete` | routes/runs.js:121-131 | the store and reply are those of `DeleteStep`; the store stays consistent |
| `Routes.Store.DeletePokemon` | routes/runs.js:135-149 | the reply is `DeletePokemonResult` of the loaded run; saved only on success |
| `Routes.Store.EditPokemon` | routes/runs.js:153-181 | the reply is `EditPokemonResult` of the loaded run; nothing saved on rejection |
| `Routes.PatchRun` | routes/runs.js:196-204 | applying the allowed keys one by one, in any order, yields exactly `UpdateRunResult` of the loaded run |
| `Routes.Store.UpdateRun` | routes/runs.js:186-212 | the reply is `UpdateRunResult` of the loaded run; saved only on success; the store stays consistent |

## Left out

- Express routing, HTTP status codes, `res.send` and `console.log`: outcomes are
  the `Result` datatype. addPokemon sends its 404 and then throws on a second
  response; the model keeps only the not-found outcome.
- Persistence: load and save are identity on the snapshot. Failures of
  `save` (schema validation, casts) are not modelled. Mongoose casting of
  stored values (a string "true" becoming a boolean) is not modelled either.
  `models/Runs` and `models/Game` are not part of this model, so schema
  defaults are absent.
- The read-only routes `/all`, `/view/:id`, `/:game/all` and `/:username`.
  Their sort by ObjectId and the case-insensitive regular-expression match on
  user names are store queries, not part of this model.
- The `withAuth` middleware: an authentication gate whose source is not part of
  this model.
- Concurrency: `await` points and the unguarded read-modify-write races between
  requests are not modelled; each route runs alone.
- ObjectIds: ids are natural numbers compared by equality, and fresh ids come
  from a counter in the store.
- Routes.Store.UpdateRun: the run is the one the body's `_id` names. A body
  without `_id`, where the store's lookup matches some arbitrary run, is not
  modelled.
- RunStore.NewRunStep: `new Run(req.body)` is reduced to a draft of the scalar
  fields. A body that carries pokemon or comments for a new run is not modelled.
- JSON numbers are integers; floating point is not modelled.
- The client components (`EditPokemon.js`, `EditRun.js`, `Game.js`): their
  form state, the species check against an external catalog and the client-side
  nickname default are not part of this model.
