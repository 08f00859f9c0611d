/** The early draft of `src/changeSafe.ts`. `changeSafe(producer)` starts one `migrations`
    array holding the producer; a caller may instead pass a starting version and an
    array. Every `next(fn)` pushes `fn` onto that same array and returns a handle one
    version later. `migrate(version = -1, data)` runs the array's
    entries after `version` on `data` and reports `migrations.length - 1`. The array is
    shared by every handle of one root, so it is modelled as a value that `Next` returns
    and `Migrate` reads; the closure reads nothing of its handle but that array. */
module ChangeSafe {
  import opened Outcomes
  import opened Steps

  /** The `version` field of a returned handle: the number a caller may pass to
      `changeSafe`, plus one per `next`. */
  datatype Handle = Handle(version: int)

  /** The shared array after a builder call, and the handle the call returned. */
  datatype Built<!T> = Built(migrations: seq<Entry<T>>, handle: Handle)

  /** Calling `migrations[i]` for a negative `i` calls `undefined`, which throws. */
  datatype Error = NotAFunction(index: int)

  /** The `{ result, version }` object `migrate` returns. */
  datatype Outcome<T> = Outcome(result: T, version: int)

  /** `changeSafe(migrationFn, version = 0, migrations = [migrationFn])`: a handle at the
      given version, default 0, over the given array, by default a new one holding only the
      producer. A caller-supplied array is used as it is, so the producer is then not in it. */
  function ChangeSafe<T>(migrationFn: () -> T, version: Option<int>, migrations: Option<seq<Entry<T>>>)
    : (b: Built<T>)
    ensures version.None? ==> b.handle.version == 0
    ensures version.Some? ==> b.handle.version == version.value
    ensures migrations.None? ==> b.migrations == [Producer(migrationFn)]
    ensures migrations.Some? ==> b.migrations == migrations.value
  {
    Built(migrations.GetOr([Producer(migrationFn)]), Handle(version.GetOr(0)))
  }

  /** `next(fn)`: pushes `fn` onto the shared array and returns a handle one version
      after the receiver. */
  function Next<T>(migrations: seq<Entry<T>>, h: Handle, fn: T -> T): (b: Built<T>)
    ensures |b.migrations| == |migrations| + 1
    ensures b.migrations[..|migrations|] == migrations && b.migrations[|migrations|] == Step(fn)
    ensures b.handle.version == h.version + 1
  {
    Built(migrations + [Step(fn)], Handle(h.version + 1))
  }

  /** The loop of `migrate` from index `i`: every entry from `i` to the end runs on the
      previous result; a negative index holds no function. */
  function Loop<T>(ms: seq<Entry<T>>, i: int, result: T): (r: Result<T, Error>)
    ensures i < 0 ==> r == Err(NotAFunction(i))
    ensures 0 <= i ==> r == Ok(Apply(Functions(ms[if i < |ms| then i else |ms|..]), result))
    decreases |ms| - i
  {
    if i >= |ms| then Ok(result)
    else if i < 0 then Err(NotAFunction(i))
    else
      var fs := Functions(ms[i..]);
      assert fs[1..] == Functions(ms[i + 1..]);
      Loop(ms, i + 1, AsFunction(ms[i])(result))
  }

  /** `migrate(version, data)`: an absent version is -1. */
  function Migrate<T>(migrations: seq<Entry<T>>, version: Option<int>, data: T): (r: Result<Outcome<T>, Error>)
    ensures r.Err? <==> version.GetOr(-1) < -1
    ensures r.Ok? ==> r.value.version == |migrations| - 1
    ensures 0 <= version.GetOr(-1) + 1 ==>
      var first := version.GetOr(-1) + 1;
      r == Ok(Outcome(Apply(Functions(migrations[if first < |migrations| then first else |migrations|..]), data),
                      |migrations| - 1))
  {
    match Loop(migrations, version.GetOr(-1) + 1, data)
    case Ok(result) => Ok(Outcome(result, |migrations| - 1))
    case Err(e) => Err(e)
  }

  /** The array holds the producer followed by the steps `fns`, in that order. */
  ghost predicate Declares<T>(ms: seq<Entry<T>>, producer: () -> T, fns: seq<T -> T>) {
    && |ms| == |fns| + 1
    && ms[0] == Producer(producer)
    && forall i :: 0 <= i < |fns| ==> ms[i + 1] == Step(fns[i])
  }

  /** The state after `changeSafe(producer)`, with the default version and array, and one
      path of `next` calls, no branches: the handle's version counts the `next` calls, and
      the array holds the producer and then every step in the order declared. */
  function Build<T>(producer: () -> T, fns: seq<T -> T>): (b: Built<T>)
    ensures b.handle.version == |fns|
    ensures Declares(b.migrations, producer, fns)
    decreases |fns|
  {
    if |fns| == 0 then ChangeSafe(producer, None, None)
    else
      var prev := Build(producer, fns[..|fns| - 1]);
      Next(prev.migrations, prev.handle, fns[|fns| - 1])
  }

  /** The functions run for the entries from index `k + 1` on are the steps declared
      from the `k`-th `next` on. */
  lemma StepFunctionsFrom<T>(ms: seq<Entry<T>>, producer: () -> T, fns: seq<T -> T>, k: nat)
    requires Declares(ms, producer, fns) && k <= |fns|
    ensures Functions(ms[k + 1..]) == fns[k..]
  {
    var fs := Functions(ms[k + 1..]);
    forall i | 0 <= i < |fs|
      ensures fs[i] == fns[k..][i]
    {
      assert ms[k + 1..][i] == Step(fns[k + i]);
    }
  }

  /** Running an array whose first entry is a producer ignores the data it starts from. */
  lemma ProducerRunsFirst<T>(ms: seq<Entry<T>>, producer: () -> T, data: T)
    requires |ms| >= 1 && ms[0] == Producer(producer)
    ensures Apply(Functions(ms), data) == Apply(Functions(ms[1..]), producer())
  {
    var fs := Functions(ms);
    assert fs[1..] == Functions(ms[1..]);
  }

  /** `migrate()` with no version runs every entry, the producer first: the result is the
      produced value carried through every declared step. */
  lemma MigrateDefaultRunsEverything<T>(ms: seq<Entry<T>>, producer: () -> T, fns: seq<T -> T>, data: T)
    requires Declares(ms, producer, fns)
    ensures Migrate(ms, None, data) == Ok(Outcome(Apply(fns, producer()), |fns|))
  {
    StepFunctionsFrom(ms, producer, fns, 0);
    assert fns[0..] == fns;
    ProducerRunsFirst(ms, producer, data);
    assert ms[0..] == ms;
  }

  /** `migrate(k, data)` for `k >= 0` runs exactly the steps declared after version `k`,
      in order; from the last version on, the data comes back unchanged. */
  lemma MigrateFromVersion<T>(ms: seq<Entry<T>>, producer: () -> T, fns: seq<T -> T>, k: nat, data: T)
    requires Declares(ms, producer, fns)
    ensures k < |fns| ==> Migrate(ms, Some(k), data) == Ok(Outcome(Apply(fns[k..], data), |fns|))
    ensures k >= |fns| ==> Migrate(ms, Some(k), data) == Ok(Outcome(data, |fns|))
  {
    if k < |fns| {
      StepFunctionsFrom(ms, producer, fns, k);
    } else {
      assert ms[|ms|..] == [];
    }
  }

  /** Every handle of a root sees a step any of them pushes: whatever handle `next` is
      called through, each migration that starts before the end of the old array now also
      runs `fn`, last, and reports the new array's length minus one (the old length). */
  lemma NextSeenByEveryHandle<T>(migrations: seq<Entry<T>>, h: Handle, fn: T -> T, version: Option<int>, data: T)
    requires -1 <= version.GetOr(-1) < |migrations|
    ensures var after := Migrate(Next(migrations, h, fn).migrations, version, data);
      && Migrate(migrations, version, data).Ok?
      && after == Ok(Outcome(fn(Migrate(migrations, version, data).value.result), |migrations|))
  {
    var ms := Next(migrations, h, fn).migrations;
    var first := version.GetOr(-1) + 1;
    assert Functions(ms[first..]) == Functions(migrations[first..]) + [fn];
    ApplySnoc(Functions(migrations[first..]), fn, data);
  }

  /** Two handles branched from one root both report version 1, yet both read the one
      array holding both branches' steps: `migrate()` runs 100, then + 1, then * 10 and
      reports version 2. */
  lemma BranchesShareOneArray()
    ensures
      var root := ChangeSafe(() => 100, None, None);
      var a := Next(root.migrations, root.handle, x => x + 1);
      var b := Next(a.migrations, root.handle, x => x * 10);
      && a.handle.version == 1 && b.handle.version == 1
      && Migrate(b.migrations, None, 0) == Ok(Outcome(1010, 2))
  {
    var root := ChangeSafe(() => 100, None, None);
    var a := Next(root.migrations, root.handle, x => x + 1);
    var b := Next(a.migrations, root.handle, x => x * 10);
    assert Functions(b.migrations)[1..][1..] == [x => x * 10];
  }
}
