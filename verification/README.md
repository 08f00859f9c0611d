# Versioned migration chains, modelled in Dafny

The repository holds several drafts of one idea: a **versioned migration chain**. A caller
declares an initial value (or a producer of it) and an ordered list of transformation
steps. `migrate(startVersion, data)` then runs exactly the steps declared after
`startVersion`, in declaration order, and reports the latest version. This project models
the five drafts as pure Dafny functions over generic payloads `T`, with steps as
`T -> T`. Every `throw` becomes an `Err` carrying a tagged error.

| file | module | draft |
|---|---|---|
| `outcomes.dfy` | `Outcomes` | `Option` for an omitted argument, and `Result` for a return or a throw |
| `steps.dfy` | `Steps` | The parts all drafts share: `Apply`, the left fold every migrate loop performs; `IndexOf`, i.e. `Array.prototype.indexOf`; the registry `Entry`, a producer or a step; and `Clone` |
| `future_proof.dfy` | `FutureProof` | `src/future-proof.ts`: the ordinal chain built by `from`, `to` and `init` |
| `named_chain.dfy` | `NamedChain` | `src/versioned.ts` and `src/create.ts`: named tokens, and one record shared by every handle |
| `checked_chain.dfy` | `CheckedChain` | The named chain whose `next` refuses a token that is already registered (see Findings) |
| `upkeep.dfy` | `Upkeep` | `src/object.upkeep.ts`: the `Map`-driven evaluator |
| `change_safe.dfy` | `ChangeSafe` | `src/changeSafe.ts`: the early draft in which every handle shares one array |

Two drafts keep mutable state that all handles from one root share. One is the
`migrations` record of `versioned.ts` and `create.ts`; the other is the array of
`changeSafe.ts`. The model passes this state explicitly:
- every operation takes the current registry;
- every `next` returns the new registry together with the new handle.

A handle holds only what its closure holds besides the shared state: the token list, or
the version number. Besides the argument shape (objects `{ version, data }` and
`{ version, fn }` in `versioned.ts`, positional arguments in `create.ts`), `versioned.ts`
differs from `create.ts` only by the `structuredClone` taken before each step. With pure steps that copy is the identity (`Steps.Clone`), so
`NamedChain` covers both files.

## Model

| member | source | states |
|---|---|---|
| Steps.IndexOf | src/versioned.ts:42 | The first position holding the token, or -1 exactly when the token is absent; no earlier position holds it |
| Steps.IndexOfAppend | src/versioned.ts:32-35 | Appending tokens to a list does not move the first occurrence of a token it already holds |
| Steps.ApplySnoc | src/future-proof.ts:57-59 | Running a chain extended by one step runs that step last, on the chain's output |
| FutureProof.From | src/future-proof.ts:3-5 | `from(initial)` is version 0, its only entry is the initial data, and it satisfies the one-step-per-version invariant |
| FutureProof.To | src/future-proof.ts:57-59 | `to(fn)` adds exactly one version and one step at the end, keeps the earlier steps, tracks the default as `fn(from)`, and preserves the invariant |
| FutureProof.MigrationAt | src/future-proof.ts:42-43 | `migrations[i]` exists exactly when the array, the seed followed by the steps, is longer than `i`, and then it is the step that produced version `i`; a function is truthy, so only a missing index fails `!migration` |
| FutureProof.Run | src/future-proof.ts:41-48 | From index `i`, the loop runs the steps of versions `i..version` in increasing order; if the array is short, it fails at the first missing index |
| FutureProof.Migrate | src/future-proof.ts:14-49 | An absent argument returns the `init` value; the latest version returns the state unchanged, and that check comes before the type and range checks; a non-number, an ordinal above the latest, and a negative ordinal each fail with their own error; success implies an in-range number |
| FutureProof.MigrateRunsLaterSteps | src/future-proof.ts:41-48 | On a chain built by `from`/`to`, migrating from ordinal `k` runs exactly the steps after `k`, in order |
| FutureProof.ValidChainFindsEveryMigration | src/future-proof.ts:41-43 | On a chain built by `from`/`to`, the "Migration i not found" error never occurs, whatever the arguments |
| FutureProof.MigrateAfterTo | src/future-proof.ts:57-58 | After `to(fn)`, every migration from an old ordinal equals the old migration followed by `fn` |
| FutureProof.MigrateSeedFromZero | src/future-proof.ts:4 | Migrating the initial data from version 0 gives the default that `to` tracks |
| NamedChain.Falsy | src/versioned.ts:49 | The `!key` test: a string token is falsy exactly when empty, a number exactly when zero (`-0` is the integer zero), and a symbol never; `NaN` is not modelled. The same test is at src/create.ts:42 |
| NamedChain.Versioned | src/versioned.ts:5-17 | A fresh record holding only the producer under the first token, and a root handle listing that token |
| NamedChain.Next | src/versioned.ts:23-36 | The new handle's list is the receiver's plus the new token; the shared record gains or replaces exactly that token's entry; handle well-formedness is kept |
| NamedChain.Walk | src/versioned.ts:47-55 | A successful walk found every later token registered and folds their functions over the data in order; a failure is "Key not found", or "Migration not found" for a later token that is not registered |
| NamedChain.WalkFails | src/versioned.ts:49-52 | The loop fails exactly when some later token is falsy or unregistered |
| NamedChain.Migrate | src/versioned.ts:38-61 | An absent start token fails with "Version not found", and only then; success reports the handle's last token |
| NamedChain.LaterEntriesAreSteps | src/versioned.ts:47 | On a well-formed handle, the entries a migration runs are all steps, never the producer |
| NamedChain.MigrateRunsLaterSteps | src/create.ts:40-49 | From the first position of a known start token, with only truthy tokens after it, `migrate` folds the steps registered under the later tokens and reports the last token |
| NamedChain.MigrateKeyNotFound | src/versioned.ts:47-49 | On a well-formed handle, "Key not found" is thrown exactly when a falsy token follows the start token |
| NamedChain.MigrateFromLatest | src/create.ts:40 | Starting at the latest position runs no step and returns the data unchanged |
| NamedChain.WalkAgrees | src/versioned.ts:51 | The loop reads the record only at the tokens it visits |
| NamedChain.WalkAppend | src/create.ts:26-29 | Walking a list extended by one token walks the old list, then handles that token |
| NamedChain.MigrateAfterAppend | src/create.ts:24-29 | Extending the list and record by a fresh truthy token adds that token's step at the end of every migration and makes it the reported version |
| NamedChain.NextExtendsMigration | src/versioned.ts:30-35 | After `next` with a fresh truthy token, each migration of the new handle equals the receiver's migration followed by `fn`, and reports the new token |
| NamedChain.SiblingNextInvisible | src/versioned.ts:30 | A `next` through any handle leaves unchanged the migrations of a handle that does not list the written token |
| NamedChain.NextKeepsSiblingsWellFormed | src/versioned.ts:30 | A `next` through any handle keeps every other handle of the root well-formed |
| NamedChain.ExampleFromFirst | src/versioned.ts:38-61 | For the chain "1": 100, "2": +1, "3": ×10, migrating 520 from "1" gives 5210 at version "3" |
| NamedChain.ExampleFromSecond | src/versioned.ts:38-61 | On the same chain, migrating 520 from "2" gives 5200 at version "3" |
| NamedChain.ExampleFromLatestAndUnknown | src/create.ts:35-38 | On the same chain, migrating from "3" returns 520 unchanged, and "4" fails with "Version not found" |
| NamedChain.SiblingNextOverwrites | src/versioned.ts:30 | As written, a sibling branch that declares token "2" again replaces the earlier branch's step: that handle's result changes from 521 to 5200 |
| NamedChain.RedeclaredLatestReruns | src/versioned.ts:30-42 | As written, after "1": 100, "2": +1 and then "1": ×10 on the same path, migrating 520 from the latest token "1" reruns every step and gives 5210 at "1" instead of 520 |
| CheckedChain.Next | src/versioned.ts:30 | `next` fails exactly when the token is already registered; otherwise it behaves like the drafts' `next` |
| CheckedChain.NextIsolatesSiblings | src/versioned.ts:30 | With the check, no successful `next` changes what any well-formed handle of the root migrates to |
| CheckedChain.NextExtendsMigration | src/versioned.ts:30-35 | With the check, a successful `next` extends the new handle's migrations by `fn` |
| CheckedChain.SiblingDuplicateRejected | src/versioned.ts:30 | With the check, declaring token "2" on the sibling is refused, and the first branch still gives 521 |
| CheckedChain.NextKeepsTokensDistinct | src/versioned.ts:30-35 | With the check, an accepted `next` on a well-formed handle without repeated tokens gives a handle without repeated tokens |
| CheckedChain.MigrateFromLatest | src/versioned.ts:38-61 | On a handle without repeated tokens, migrating from its latest token runs no step and returns the data unchanged |
| CheckedChain.RedeclarationRejected | src/versioned.ts:30 | With the check, re-declaring "1" after "1", "2" is refused, and migrating 520 from the latest token "2" gives 520 |
| Upkeep.Upkeep | src/object.upkeep.ts:20-25 | A missing or empty map is refused, and only such a map; otherwise the closure keeps the map's contents |
| Upkeep.StartIndex | src/object.upkeep.ts:41 | -1 for the empty version, otherwise the version's key position, and the key at that position is the version |
| Upkeep.Turn | src/object.upkeep.ts:41-48 | One loop turn keeps the closure's progress: the migration at position `j` runs, and its key becomes the version, exactly when `j` is past the stored version's position |
| Upkeep.Visit | src/object.upkeep.ts:32-49 | The loop stops at once exactly when the map is non-empty and the stored version is a non-empty unknown key; otherwise, after every entry, exactly the migrations after the stored version's position have run, in order, and the version is the last key, or the stored one for an empty map |
| Upkeep.Run | src/object.upkeep.ts:26-52 | The closure's answer equals `Expected`, its loop-free reading: refused with the list of keys exactly when the map is non-empty and the version is a non-empty unknown key; otherwise the migrations after the version's position, in insertion order, and the last key, or the stored version for an empty map |
| Upkeep.ExpectedWithoutVersion | src/object.upkeep.spec.ts:10-19 | With no stored version every migration runs, the producer first, and the last key is reported |
| Upkeep.ExpectedFromKey | src/object.upkeep.spec.ts:21-63 | From a non-empty stored key exactly the migrations inserted after it run; from the last key the data comes back unchanged |
| ChangeSafe.ChangeSafe | src/changeSafe.ts:8-14 | A handle at the given version, 0 when it is omitted, over the given array, or else a new array holding only the producer |
| ChangeSafe.Next | src/changeSafe.ts:15-18 | `next` pushes `fn` on the end of the shared array and returns a handle one version later |
| ChangeSafe.Loop | src/changeSafe.ts:22-24 | From a non-negative index, the loop folds the array's entries from that index on; a negative index calls a missing entry and fails |
| ChangeSafe.Migrate | src/changeSafe.ts:19-27 | The reported version is the array length minus one, not the handle's version; it fails only for a version below -1; otherwise it folds the entries after the version |
| ChangeSafe.Build | src/changeSafe.ts:15-18 | Along one path of `next` calls, the handle's version counts the calls, and the array holds the producer and then each step in order |
| ChangeSafe.MigrateDefaultRunsEverything | src/changeSafe.ts:19-24 | `migrate()` with the default version -1 runs the producer and then every step |
| ChangeSafe.MigrateFromVersion | src/changeSafe.ts:22-24 | `migrate(k, d)` runs the steps declared after version `k` in order; from the last version on it returns `d` unchanged |
| ChangeSafe.NextSeenByEveryHandle | src/changeSafe.ts:16 | After a `next` through any handle, every migration that starts inside the old array also runs the new step, last, and reports the new array's length minus one (the old length) |
| ChangeSafe.BranchesShareOneArray | src/changeSafe.ts:15-26 | Two branches from one root both report version 1, yet `migrate()` runs both branches' steps and reports version 2 |

## Left out

- `src/structuredClone.ts` is not part of this model. Each copy it takes, and the global `structuredClone` in `src/object.upkeep.ts`, is the identity (`Steps.Clone`). Steps are pure functions here, so "the caller's object is not mutated" has no counterpart.
- TypeScript type-level machinery (`VersionMap` intersections, each step's own input type): it exists only at compile time. A single payload type `T` stands for every version's data.
- The producer of the named and array drafts is a zero-argument function. `Steps.AsFunction` calls it with one argument, which it ignores, as a JavaScript call would. In `Upkeep` the first migration is simply a `T -> T` that may ignore its input.
- JavaScript values outside the integer/equality abstraction:
  - non-integer or `NaN` versions;
  - `bigint`;
  - the number/string key coercion of object records (`1` and `"1"` are distinct `NamedChain.Key` values here).
- The text of the error messages: errors are tagged values that carry the data the message prints.
- The usage lines at src/changeSafe.ts:31-39 and the to-do comment after them: top-level example calls, not operations.
- `FutureProof.Migrate` takes the `init` value `final` as a parameter instead of returning a `{ version, migrate }` record. The `version` field is the chain's `version`.
- `Upkeep.Upkeeper` stands for the contents of the caller's `Map` at the time of each call. The closure holds the `Map` by reference, so a later `set` or `delete` by the caller changes what later calls see; the model takes the contents as a value.
- ChangeSafe.ChangeSafe: a caller-supplied `migrations` array is taken as a value. In the source the caller keeps a reference to it and sees every later `push`; only the handles' view of the array is modelled.
- Upkeep.Run: requires `IsMap`, i.e. one migration per key and no key twice. A JavaScript `Map` guarantees both, and the model's pair of sequences must state them.
- The test files use two names the code does not define:
  - `src/future-proof.spec.ts` imports `./from-to-now` and calls `.now`; the code's equivalent is `init`.
  - `src/changeSafe.spec.ts` reads a `.result` field.
  The model follows the code.
- Duplicate tokens: for the named drafts, a duplicate token should be rejected at `next` time. The code instead overwrites the shared record. `NamedChain` follows the code, and `CheckedChain` models the rejection (see Findings).

## Findings

| source | as written | input that shows it | evidently intended | confidence | as-written member | corrected member |
|---|---|---|---|---|---|---|
| src/versioned.ts:30 | `next` stores `fn` under its token in the record that every handle of the root shares, replacing any step already registered under that token | Root "1" with 100. Branch A is `next("2", x => x + 1)`. Branch B is `next("2", x => x * 10)` on the root. Before B, A's `migrate("1", 520)` is 521; after B it is 5200 | Branches from one root stay independent; a token that is already registered is refused at `next` | not executed | NamedChain.SiblingNextOverwrites | CheckedChain.NextIsolatesSiblings |
| src/versioned.ts:30 | The same write, on one path: `next` accepts a token the handle already lists, and `migrate` starts from that token's first position (src/versioned.ts:42) | Root "1" with 100, then `next("2", x => x + 1)`, then `next("1", x => x * 10)`. Migrating 520 from the latest token "1" gives 5210, not 520 | Migrating from the latest version runs nothing; a repeated token is refused at `next` | not executed | NamedChain.RedeclaredLatestReruns | CheckedChain.MigrateFromLatest |

The same line occurs in `src/create.ts` at line 24. `CheckedChain.Next` refuses the
registered token. `CheckedChain.SiblingDuplicateRejected` shows that branch A keeps
giving 521. `CheckedChain.NextKeepsTokensDistinct` shows that accepted handles never
repeat a token, which is what `CheckedChain.MigrateFromLatest` needs, and
`CheckedChain.RedeclarationRejected` replays the second row's input.
