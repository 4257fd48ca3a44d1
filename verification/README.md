# Mining simulation matcher: the consensus step

This project models the server core of a Telegram mini-app. In the app, the members of one chat swipe through
candidate "mining options". The server keeps one session record, called a *stage*, per
chat. When every connected user has liked the same option, the stage records that option
as the selection and moves to `miningCompleted`.

Two pieces of `src/index.ts` are modelled:

- `defaultStage` (lines 27-36), the literal a fresh stage starts from. The model
  evaluates it as JavaScript does. The property `miningOptions` is written twice, and the
  second definition (`[]`) replaces the first (`{ tool, location }`).
- `updateMiningSimulationState` (lines 38-50). It works in four steps:
  1. It flattens the likes of all users.
  2. It counts each id in an accumulator object.
  3. It asks `Object.keys(counts).find(...)` for a key whose count is `=== users.length`.
  4. If a key is found, it selects the first candidate with that id and sets the state to
     `miningCompleted`.

The JavaScript semantics that decide the outcome are written out. Each lives in its own
module:

- `JsArray`: `Array.prototype.find` (the first match, or `undefined`) and
  `Array.prototype.flatMap`.
- `PropertyKeys`: the order of `Object.keys`, defined by OrdinaryOwnPropertyKeys in
  section 10.1.11.1 of ECMAScript 2024. Keys that are array indices come first, in
  ascending numeric order. An array index is a canonical numeral not above 2^32 - 2
  (section 6.1.7). All other keys follow in the order they were created. So the key the
  search finds is not simply the first id liked.
- `Tally`: the `reduce` into the object literal `{}`. That object inherits from
  Object.prototype (section 20.1.3).
  - For an id such as `"toString"`, `acc[id] || 0` reads the inherited function, and
    `+ 1` turns the tally into text that is never `===` a number.
  - For `"__proto__"`, the assignment goes to an inherited setter that ignores a
    primitive, so no key is created.
  - The prototype is a parameter: `ObjectPrototype` is what the code uses, and
    `NullPrototype` is a dictionary without one.
- `Stage`: the stage record, the four state names, and the evaluation of an object
  literal.
- `Matching`: the consensus rule, the update as written (`UpdateStageAsWritten`), and the
  corrected update (`UpdateStage`). `UpdateMiningSimulationState` applies the update as
  written to the table of stages; `UpdateMiningSimulationStateCorrected` applies the
  corrected one.
- `MatchingProperties` and `Scenarios`: properties of the rule, and concrete inputs that
  show how the key order and the two defects below decide a match.

The code does not pick the first candidate, in candidate order, that everyone liked. It
picks by `Object.keys` order over the tally.
`Scenarios.WinnerDependsOnUserOrder` shows that the choice can even depend on the order
in which users joined. Several ids can be unanimous at once, even when nobody likes an id
twice. So the model does not claim a unique winner. Instead it proves which one is chosen, for
the real Object.prototype as well as for a prototype-less tally:
`Matching.UnanimousKeyChoice`, `Matching.LeastIndexIdWins` and
`Matching.FirstLikedNamedIdWins`.

## Model

| member | source | states |
|---|---|---|
| `JsArray.Find` | src/index.ts:44-46 | `find` yields nothing exactly when no element satisfies the callback; otherwise it yields an element that satisfies it, and no earlier element does |
| `JsArray.FlatMapMembers` | src/index.ts:41-42 | an id is in the flattened likes exactly when some user's list of likes contains it |
| `JsArray.FlatMapAppend` | src/index.ts:41-42 | flattening the concatenation of two lists of users is the concatenation of their flattenings |
| `JsArray.FlatMapPermutation` | src/index.ts:41-42 | reordering the users only reorders the flattened likes: the multiset of likes is unchanged |
| `PropertyKeys.ArrayIndexValueInjective` | src/index.ts:44-45 | two array-index keys with the same numeric value are the same key, so the ascending key order never has a tie |
| `PropertyKeys.OwnKeys` | src/index.ts:44-45 | `Object.keys` returns a permutation of the keys in creation order; no key that is not an index comes before an index key; index keys ascend by value; other keys keep their creation order |
| `PropertyKeys.FindInOwnKeys` | src/index.ts:44-46 | `Object.keys(o).find(p)` finds nothing exactly when no key satisfies `p`. If it finds an index key, that key has the least value among satisfying index keys. If it finds another key, no index key satisfies `p`, and the result is the first satisfying key in creation order |
| `Tally.Reduce` | src/index.ts:43 | the accumulator's keys are the liked ids that no inherited setter swallows, without repeats, in order of first like. A key the prototype does not name holds its number of occurrences; a key the prototype names holds text |
| `Tally.NullPrototypeTally` | src/index.ts:41-43 | with a prototype-less accumulator, an id is a key exactly when it was liked, and it holds its count, which is at least 1 |
| `Tally.PrototypeIrrelevantForOrdinaryIds` | src/index.ts:43 | when no liked id names an Object.prototype property, the real accumulator equals the prototype-less one |
| `Stage.ParseState` | src/components/home.tsx:30-41 | a name reads back as a state exactly when it is one of the four names the client switches on |
| `Stage.StateNameRoundTrip` | src/components/home.tsx:30-41 | every state survives the trip through its name, so distinct states have distinct names |
| `Stage.EvalObjectLiteral` | src/index.ts:27-36 | an object literal defines exactly the names written in it; a name written more than once takes the value written last |
| `Stage.DefaultMiningOptionsOverridden` | src/index.ts:29-34 | in `defaultStage`, `miningOptions` is the empty list: the second definition replaces the `{ tool, location }` record |
| `Stage.DefaultStageIsFreshSetup` | src/index.ts:27-36 | the default stage is in `setup`, with no users, no candidates and no selection |
| `Matching.LikedIds` | src/index.ts:41-42 | the flattened likes hold exactly the ids some user liked |
| `Matching.QualifiesIffUnanimous` | src/index.ts:43-46 | a key passes the `find` callback exactly when its id is unanimous and the prototype does not name it |
| `Matching.UnanimousKey` | src/index.ts:41-46 | a found key is unanimous, and the prototype names it neither as a method nor as an accessor. No key is found exactly when no id outside the prototype's names is unanimous |
| `Matching.UnanimousKeyChoice` | src/index.ts:44-46 | if the found key is an array index, it has the least value among unanimous index ids. If it is not, no unanimous id is an index, and every other unanimous id was first liked later |
| `Matching.SoleUnanimousIdWins` | src/index.ts:44-46 | for any prototype, when exactly one id outside its names is unanimous, that id is the key found, whatever its form |
| `Matching.FirstLikedNamedIdWins` | src/index.ts:41-46 | for any prototype, when no unanimous id outside its names is an array index, the one of them liked first in the flattened likes is the key found |
| `Matching.LeastIndexIdWins` | src/index.ts:44-46 | for any prototype, the unanimous array-index id of least value among those outside its names is the key found |
| `Matching.SelectOption` | src/index.ts:49 | the selection is nothing exactly when no candidate has the key as its id; otherwise it is the first candidate that does |
| `Matching.FirstOptionSelected` | src/index.ts:49 | a first candidate carrying the key is the one selected |
| `Matching.UpdateStageAsWritten` | src/index.ts:38-50 | users and candidates are untouched. Either the stage is unchanged, or it is `miningCompleted` with the selection of some unanimous non-empty id. Without a unanimous id, nothing changes |
| `Matching.UpdateStage` | src/index.ts:38-50 | users and candidates are untouched. Any unanimous id completes the simulation, with the selection made for a unanimous id. Without one, nothing changes |
| `Matching.UpdateMiningSimulationState` | src/index.ts:38-50 | reading a chat id with no stage is an error. Otherwise only that chat's stage changes, to its form after the update as written, and the set of chats stays the same |
| `Matching.UpdateMiningSimulationStateCorrected` | src/index.ts:38-50 | the same table update, with the chat's stage replaced by its corrected update |
| `MatchingProperties.LikeCountIgnoresUserOrder` | src/index.ts:41-43 | counts, and so unanimity, do not depend on the order in which users joined |
| `MatchingProperties.LikeCountOfDistinctLikes` | src/index.ts:41-46 | when nobody likes an id twice, no count exceeds the number of users, and a count equals it exactly when every user liked the id |
| `MatchingProperties.UnanimityMeansEveryoneLiked` | src/index.ts:44-46 | when nobody likes an id twice, an id is unanimous exactly when there are users and every one of them liked it |
| `MatchingProperties.RepeatedLikesCanStandInForAUser` | src/index.ts:41-46 | the rule counts likes, not users: a user who liked an id twice makes it unanimous although another user never liked it |
| `MatchingProperties.NoUsersNoMatch` | src/index.ts:44-46 | with no users, no key is ever found |
| `MatchingProperties.PrototypeNamesNeverWin` | src/index.ts:43-46 | in the code as written, an id naming an Object.prototype property is never the key found |
| `MatchingProperties.TalliesAgree` | src/index.ts:43 | when no like names an Object.prototype property, both accumulators give the same tally and the same found key |
| `MatchingProperties.UnanimousKeysAgree` | src/index.ts:43-48 | when every like is non-empty and no prototype name, the key found as written is never `""`, and it equals the corrected key |
| `MatchingProperties.UpdateAgreesOnOrdinaryIds` | src/index.ts:38-50 | when every like is non-empty and no prototype name, the update as written and the corrected update give the same stage |
| `MatchingProperties.TableUpdatesAgreeOnOrdinaryIds` | src/index.ts:38-50 | when the chat's likes are all non-empty and no prototype name, the table update as written and the corrected one give the same result, error included |
| `Scenarios.WinnerDependsOnUserOrder` | src/index.ts:41-46 | two users who both liked `x` and `y`: the winner is `x` in one join order and `y` in the other |
| `Scenarios.IndexIdsWinByValue` | src/index.ts:44-46 | `"2"` wins over `"10"`, although every user liked `"10"` first |
| `Scenarios.LoneLikeCompletes` | src/index.ts:38-50 | one user who liked exactly one id: the corrected update completes on that id |
| `Scenarios.LoneLikeIgnoredAsWritten` | src/index.ts:43-48 | one user who liked exactly one id, which is `""` or names an Object.prototype method or accessor (such as `"__proto__"`): the code as written leaves the stage unchanged |
| `Scenarios.EmptyIdBlocksLaterUnanimousId` | src/index.ts:44-48 | one user who liked `""` and then `"x"`: both are unanimous, the key found is `""`, and the code as written leaves the stage unchanged although `"x"` is unanimous |
| `Scenarios.EmptyIdUnanimityIgnored` | src/index.ts:48 | a unanimous `""` id leaves the stage unchanged as written, but completes it in the corrected update |
| `Scenarios.PrototypeNameUnanimityIgnored` | src/index.ts:43-46 | a unanimous `"toString"` id leaves the stage unchanged as written, but completes it in the corrected update |

## Left out

- The Telegram bot and its greeting (src/index.ts:9-25), the static file route and the
  mining API client (src/index.ts:7-8): I/O and external services.
- The match alert sent to each user (src/index.ts:51-54): messaging I/O.
- Everything after line 54 of src/index.ts is not part of this model. That includes how
  `newState` is stored, the broadcast of the stage, and every other handler that creates,
  joins, leaves, restarts or rates a stage.
  - The model assumes that `newState` becomes `stage.state` and that nothing else changes.
  - Without a found key, the visible code changes nothing, so the model returns the stage
    unchanged.
- The client component (src/components/home.tsx) beyond the four state names it switches
  on: UI and browser calls.
- The in-place mutation of `stages[chatInstanceId]` is modelled as a new value in a map.
  Chat ids that name Object.prototype properties are not modelled for `stages`.
- `null` and `undefined` are both modelled as `None`.
- Ids are strings, so the loose `==` at src/index.ts:49 is string equality. Numeric
  candidate ids, which `==` would compare with the string key after conversion, are not
  modelled.
- `likedMiningOptionIds` is assumed to be an array. For any other value, `flatMap` would
  add the value itself.
- Counts are unbounded naturals. JavaScript numbers are exact up to 2^53, far beyond any
  chat size.
- `Matching.UpdateStageAsWritten`: its contract does not say which unanimous id completes
  the stage, or that one always does. `MatchingProperties.UpdateAgreesOnOrdinaryIds`
  covers that for ordinary ids, by equating it with `Matching.UpdateStage`.

## Findings

| source | as written | input that shows it | evidently intended | confidence | as-written member | corrected member |
|---|---|---|---|---|---|---|
| src/index.ts:48 | the found key is tested for truthiness, so a unanimous option whose id is the empty string counts as no match. When `""` is found first, it also hides any other unanimous id | one user in `miningSimulation` whose only like is the candidate with id `""` | any found key completes the simulation and selects its candidate | not executed | `Scenarios.EmptyIdUnanimityIgnored` | `Matching.UpdateStage` |
| src/index.ts:43 | the counts live in a plain object that inherits from Object.prototype. For an id such as `"toString"`, the lookup reads the inherited function and the tally becomes text, so the `===` test never matches. For `"__proto__"`, no key is created at all | one user in `miningSimulation` whose only like is the candidate with id `"toString"` | every liked id is counted, as with a prototype-less object or a `Map` | not executed | `Scenarios.PrototypeNameUnanimityIgnored` | `Matching.UpdateStage` |

`Scenarios.EmptyIdBlocksLaterUnanimousId` shows the second effect of the first row. A
user who liked `""` and then `"x"` makes both ids unanimous. The search finds `""`, and
the code as written then leaves the stage unchanged.
