/** The ordinal chain of `src/future-proof.ts`: `from(initial)` is version 0, every
    `to(fn)` adds one step and one version, and `init(final)` yields `migrate`, which
    brings data tagged with an ordinal forward to the latest version. */
module FutureProof {
  import opened Outcomes
  import opened Steps

  /** The state one `fromTo(from, version, migrations)` call closes over. The source's
      `migrations` array holds the initial data at index 0 and, at index i >= 1, the step
      that produced version i; here the data is `seed` and index i is `steps[i - 1]`.
      `from` is the default value `to` tracks eagerly. */
  datatype Chain<!T> = Chain(from: T, version: nat, seed: T, steps: seq<T -> T>)

  /** What every chain built by `from` and `to` satisfies: one step per version, and the
      tracked default is the initial data carried through every step. */
  ghost predicate Valid<T>(c: Chain<T>) {
    |c.steps| == c.version && c.from == Apply(c.steps, c.seed)
  }

  /** A version as JavaScript passes it to `migrate`: a number, or a value of another type. */
  datatype VersionArg = Number(n: int) | NotNumber(text: string)

  /** The three validation errors of `migrate` and the missing-migration error of its loop. */
  datatype Error =
    | NotANumber(text: string)
    | AboveLatest(fromVersion: int, latest: nat)
    | BelowZero(fromVersion: int)
    | MigrationNotFound(index: int)

  /** `from(initial)`: the chain at version 0 whose only entry is the initial data. */
  function From<T>(initial: T): (c: Chain<T>)
    ensures c.version == 0 && c.from == initial && c.seed == initial
    ensures Valid(c)
  {
    Chain(initial, 0, initial, [])
  }

  /** `to(fn)`: a new chain one version later. The receiver is a value and is left as it
      was; the new chain's steps are the receiver's followed by `fn`. */
  function To<T>(c: Chain<T>, fn: T -> T): (r: Chain<T>)
    ensures r.version == c.version + 1
    ensures |r.steps| == |c.steps| + 1
    ensures r.seed == c.seed && r.steps[..|c.steps|] == c.steps && r.steps[|c.steps|] == fn
    ensures r.from == fn(c.from)
    ensures Valid(c) ==> Valid(r)
  {
    ApplySnoc(c.steps, fn, c.seed);
    Chain(fn(c.from), c.version + 1, c.seed, c.steps + [fn])
  }

  /** `migrations[i]` for an index the loop visits (i >= 1), when the array has it. The
      array is the seed followed by the steps, so it has index `i` exactly when there are
      at least `i` steps; a function is always truthy, so only a missing index fails
      `!migration`. */
  function MigrationAt<T>(c: Chain<T>, i: nat): (r: Option<T -> T>)
    requires 1 <= i
    ensures r.Some? <==> i < |c.steps| + 1
    ensures r.Some? ==> r.value == c.steps[i - 1]
  {
    if i <= |c.steps| then Some(c.steps[i - 1]) else None
  }

  /** The loop of `migrate`, from index `i` up to and including `version`: each migration
      runs on a copy of the previous state. */
  function Run<T>(c: Chain<T>, i: nat, state: T): (r: Result<T, Error>)
    requires 1 <= i <= c.version + 1
    ensures c.version <= |c.steps| ==> r == Ok(Apply(c.steps[i - 1..c.version], state))
    ensures |c.steps| < c.version && i <= c.version ==>
      r == Err(MigrationNotFound(if i <= |c.steps| + 1 then |c.steps| + 1 else i))
    decreases c.version + 1 - i
  {
    if i == c.version + 1 then Ok(state)
    else
      match MigrationAt(c, i)
      case None => Err(MigrationNotFound(i))
      case Some(migration) =>
        assert c.version <= |c.steps| ==> c.steps[i - 1..c.version][1..] == c.steps[i..c.version];
        Run(c, i + 1, migration(Clone(state)))
  }

  /** The `migrate` closure of `init(final)`: `state` and `fromVersion` are optional. */
  function Migrate<T>(c: Chain<T>, final: T, state: Option<T>, fromVersion: Option<VersionArg>)
    : (r: Result<T, Error>)
    ensures state.None? || fromVersion.None? ==> r == Ok(final)
    ensures state.Some? && fromVersion == Some(Number(c.version)) ==> r == Ok(state.value)
    ensures state.Some? && fromVersion.Some? && fromVersion.value.NotNumber? ==>
      r == Err(NotANumber(fromVersion.value.text))
    ensures state.Some? && fromVersion.Some? && fromVersion.value.Number? ==>
      var n := fromVersion.value.n;
      (n > c.version ==> r == Err(AboveLatest(n, c.version))) &&
      (n < 0 ==> r == Err(BelowZero(n)))
    ensures state.Some? && fromVersion.Some? && r.Ok? ==>
      fromVersion.value.Number? && 0 <= fromVersion.value.n <= c.version
  {
    if state.None? || fromVersion.None? then Ok(final)
    else if fromVersion.value == Number(c.version) then Ok(state.value)
    else
      match fromVersion.value
      case NotNumber(text) => Err(NotANumber(text))
      case Number(n) =>
        if n > c.version then Err(AboveLatest(n, c.version))
        else if n < 0 then Err(BelowZero(n))
        else Run(c, n + 1, state.value)
  }

  /** From an in-range ordinal `k`, a valid chain runs exactly the steps that produced
      versions k+1 through `version`, in increasing order; the initial data at index 0
      is never one of them. */
  lemma MigrateRunsLaterSteps<T>(c: Chain<T>, final: T, s: T, k: int)
    requires Valid(c)
    requires 0 <= k <= c.version
    ensures Migrate(c, final, Some(s), Some(Number(k))) == Ok(Apply(c.steps[k..], s))
  {
    if k < c.version {
      assert c.steps[k..c.version] == c.steps[k..];
    } else {
      assert c.steps[k..] == [];
    }
  }

  /** Because a valid chain has one step per version, the "Migration i not found" branch
      of the loop is never taken, whatever the arguments. */
  lemma ValidChainFindsEveryMigration<T>(c: Chain<T>, final: T, state: Option<T>, fromVersion: Option<VersionArg>)
    requires Valid(c)
    ensures var r := Migrate(c, final, state, fromVersion);
      r.Err? ==> !r.error.MigrationNotFound?
  {
  }

  /** Adding a step with `to` extends every migration by running that step last. */
  lemma MigrateAfterTo<T>(c: Chain<T>, fn: T -> T, final: T, s: T, k: int)
    requires Valid(c)
    requires 0 <= k <= c.version
    ensures Migrate(c, final, Some(s), Some(Number(k))).Ok?
    ensures Migrate(To(c, fn), final, Some(s), Some(Number(k)))
         == Ok(fn(Migrate(c, final, Some(s), Some(Number(k))).value))
  {
    var r := To(c, fn);
    MigrateRunsLaterSteps(c, final, s, k);
    MigrateRunsLaterSteps(r, final, s, k);
    assert r.steps[k..] == c.steps[k..] + [fn];
    ApplySnoc(c.steps[k..], fn, s);
  }

  /** The default `to` tracks eagerly is what migrating the initial data from version 0
      produces. */
  lemma MigrateSeedFromZero<T>(c: Chain<T>, final: T)
    requires Valid(c)
    ensures Migrate(c, final, Some(c.seed), Some(Number(0))) == Ok(c.from)
  {
    MigrateRunsLaterSteps(c, final, c.seed, 0);
    assert c.steps[0..] == c.steps;
  }
}
