/** The named-version chain of `src/versioned.ts` and `src/create.ts`. A root handle is
    built from a first version token and a producer; every `next` writes its step into
    one record shared by all handles from that root and returns a handle whose version
    list is the receiver's with the new token appended. `migrate` finds the start token's
    first position and runs the steps registered under every later token, in order.

    Besides the argument shape (objects in `versioned.ts`, positional arguments in
    `create.ts`), the two files differ only in that `versioned.ts` copies the data before
    each step; with pure steps that copy is the identity (`Steps.Clone`), so one model
    covers both.
    The shared record is modelled as a value that every operation takes and `Next`
    returns, so that handles from one root read and write the same registry. */
module NamedChain {
  import opened Outcomes
  import opened Steps

  /** A version token, `string | number | symbol`; a symbol is known by an identity. */
  datatype Key = Str(s: string) | Num(n: int) | Sym(id: nat)

  /** JavaScript falsiness of a token (`!key`): the empty string and zero; `-0` is the
      integer zero here, and a symbol is always truthy. */
  function Falsy(k: Key): (b: bool)
    ensures k.Str? ==> (b <==> |k.s| == 0)
    ensures k.Num? ==> (b <==> k.n == 0)
    ensures k.Sym? ==> !b
  {
    k == Str("") || k == Num(0)
  }

  /** The `migrations` record shared by every handle built from one root. */
  type Registry<!T> = map<Key, Entry<T>>

  /** What one `inner(migrations, versions)` call holds besides the shared record. */
  datatype Handle = Handle(versions: seq<Key>)

  /** The shared record after a builder call, and the handle the call returned. */
  datatype Built<!T> = Built(registry: Registry<T>, handle: Handle)

  /** The errors `migrate` throws. */
  datatype Error = VersionNotFound(version: Key) | KeyNotFound | MigrationNotFound(key: Key)

  /** The `{ version, result }` object of a successful `migrate`. */
  datatype Migrated<T> = Migrated(version: Key, result: T)

  /** What holds of every handle while the registry changes only through `Versioned` and
      `Next`: it lists at least one token, every token is registered, and every token after
      the first names a step, never the producer. */
  predicate WellFormed<T>(reg: Registry<T>, h: Handle) {
    && |h.versions| >= 1
    && (forall i :: 0 <= i < |h.versions| ==> h.versions[i] in reg)
    && (forall i :: 1 <= i < |h.versions| ==> h.versions[i] in reg && reg[h.versions[i]].Step?)
  }

  /** `versioned({ version, data })` and `create(version, data)`: a fresh record holding
      the producer under the first token, and the root handle listing that token. */
  function Versioned<T>(version: Key, data: () -> T): (b: Built<T>)
    ensures b.handle.versions == [version]
    ensures b.registry.Keys == {version} && b.registry[version] == Producer(data)
    ensures WellFormed(b.registry, b.handle)
  {
    Built(map[version := Producer(data)], Handle([version]))
  }

  /** `next`: writes `fn` under `version` into the shared record, replacing whatever was
      registered under that token, and returns a handle whose list is the receiver's with
      `version` appended. */
  function Next<T>(reg: Registry<T>, h: Handle, version: Key, fn: T -> T): (b: Built<T>)
    ensures b.handle.versions == h.versions + [version]
    ensures b.registry.Keys == reg.Keys + {version} && b.registry[version] == Step(fn)
    ensures forall k :: k in reg && k != version ==> b.registry[k] == reg[k]
    ensures WellFormed(reg, h) ==> WellFormed(b.registry, b.handle)
  {
    Built(reg[version := Step(fn)], Handle(h.versions + [version]))
  }

  /** The registered entries of `keys`, in order. */
  function Lookup<T>(reg: Registry<T>, keys: seq<Key>): (es: seq<Entry<T>>)
    requires forall j :: 0 <= j < |keys| ==> keys[j] in reg
    ensures |es| == |keys|
    ensures forall j :: 0 <= j < |keys| ==> es[j] == reg[keys[j]]
  {
    seq(|keys|, j requires 0 <= j < |keys| => reg[keys[j]])
  }

  /** The loop of `migrate` from position `i`: each token must be truthy and registered,
      and its function runs on a copy of the previous output. */
  function Walk<T>(reg: Registry<T>, versions: seq<Key>, i: nat, data: T): (r: Result<T, Error>)
    requires i <= |versions|
    ensures r.Err? ==> r.error == KeyNotFound || r.error.MigrationNotFound?
    ensures r.Err? && r.error.MigrationNotFound? ==> r.error.key in versions[i..] && r.error.key !in reg
    ensures r.Ok? ==> (forall j :: i <= j < |versions| ==> versions[j] in reg)
                      && r.value == Apply(Functions(Lookup(reg, versions[i..])), data)
    decreases |versions| - i
  {
    if i == |versions| then Ok(data)
    else
      var key := versions[i];
      if Falsy(key) then Err(KeyNotFound)
      else if key !in reg then Err(MigrationNotFound(key))
      else
        var r := Walk(reg, versions, i + 1, AsFunction(reg[key])(Clone(data)));
        if r.Ok? then
          var fs := Functions(Lookup(reg, versions[i..]));
          assert fs[0] == AsFunction(reg[key]);
          assert fs[1..] == Functions(Lookup(reg, versions[i + 1..]));
          r
        else r
  }

  /** The walk from position `i` fails exactly when a token from `i` on is falsy or
      unregistered. */
  lemma {:induction false} WalkFails<T>(reg: Registry<T>, versions: seq<Key>, i: nat, data: T)
    requires i <= |versions|
    ensures Walk(reg, versions, i, data).Err?
        <==> exists j :: i <= j < |versions| && (Falsy(versions[j]) || versions[j] !in reg)
    decreases |versions| - i
  {
    if i < |versions| && !Falsy(versions[i]) && versions[i] in reg {
      var key := versions[i];
      WalkFails(reg, versions, i + 1, AsFunction(reg[key])(Clone(data)));
      if exists j :: i <= j < |versions| && (Falsy(versions[j]) || versions[j] !in reg) {
        var j :| i <= j < |versions| && (Falsy(versions[j]) || versions[j] !in reg);
        assert j != i;
      }
    }
  }

  /** `migrate(version, data)`: resolve the start token to its first position, run every
      later step, and report the last token of the handle. */
  function Migrate<T>(reg: Registry<T>, h: Handle, version: Key, data: T): (r: Result<Migrated<T>, Error>)
    ensures version !in h.versions <==> r == Err(VersionNotFound(version))
    ensures r.Ok? ==> version in h.versions && r.value.version == h.versions[|h.versions| - 1]
  {
    var index := IndexOf(h.versions, version);
    if index == -1 then Err(VersionNotFound(version))
    else
      match Walk(reg, h.versions, index + 1, data)
      case Ok(result) => Ok(Migrated(h.versions[|h.versions| - 1], result))
      case Err(e) => Err(e)
  }

  /** A known start token runs the walk from just after its first position; the walk's
      result or error becomes the result or error of `migrate`. */
  lemma MigrateByWalk<T>(reg: Registry<T>, h: Handle, version: Key, data: T)
    requires version in h.versions
    ensures var w := Walk(reg, h.versions, IndexOf(h.versions, version) + 1, data);
      Migrate(reg, h, version, data)
        == if w.Ok? then Ok(Migrated(h.versions[|h.versions| - 1], w.value)) else Err(w.error)
  {
  }

  /** On a well-formed handle, every token after the first names a step: whatever position
      a migration starts from, the producer is never among the functions it runs. */
  lemma LaterEntriesAreSteps<T>(reg: Registry<T>, h: Handle, p: nat)
    requires WellFormed(reg, h)
    requires p < |h.versions|
    ensures forall e :: e in Lookup(reg, h.versions[p + 1..]) ==> e.Step?
  {
    var later := h.versions[p + 1..];
    forall e | e in Lookup(reg, later)
      ensures e.Step?
    {
      var j :| 0 <= j < |later| && Lookup(reg, later)[j] == e;
      assert later[j] == h.versions[p + 1 + j];
    }
  }

  /** On a well-formed handle, a known start token at first position `p` with only truthy
      tokens after it runs the functions registered under `versions[p+1..]`, each on the
      previous one's output, and reports the last token. */
  lemma MigrateRunsLaterSteps<T>(reg: Registry<T>, h: Handle, version: Key, data: T)
    requires WellFormed(reg, h)
    requires version in h.versions
    requires forall j :: IndexOf(h.versions, version) < j < |h.versions| ==> !Falsy(h.versions[j])
    ensures Migrate(reg, h, version, data)
         == Ok(Migrated(h.versions[|h.versions| - 1],
                        Apply(Functions(Lookup(reg, h.versions[IndexOf(h.versions, version) + 1..])), data)))
  {
    var p := IndexOf(h.versions, version);
    assert forall j :: p + 1 <= j < |h.versions| ==> !Falsy(h.versions[j]) && h.versions[j] in reg;
    WalkFails(reg, h.versions, p + 1, data);
    MigrateByWalk(reg, h, version, data);
  }

  /** On a well-formed handle with a known start token, `migrate` throws "Key not found"
      exactly when a falsy token follows the start token's first position. */
  lemma MigrateKeyNotFound<T>(reg: Registry<T>, h: Handle, version: Key, data: T)
    requires WellFormed(reg, h)
    requires version in h.versions
    ensures Migrate(reg, h, version, data) == Err(KeyNotFound)
        <==> exists j :: IndexOf(h.versions, version) < j < |h.versions| && Falsy(h.versions[j])
  {
    var p := IndexOf(h.versions, version);
    WalkFails(reg, h.versions, p + 1, data);
    MigrateByWalk(reg, h, version, data);
  }

  /** Starting at the latest position runs nothing and returns the data unchanged. */
  lemma MigrateFromLatest<T>(reg: Registry<T>, h: Handle, version: Key, data: T)
    requires |h.versions| >= 1 && IndexOf(h.versions, version) == |h.versions| - 1
    ensures Migrate(reg, h, version, data) == Ok(Migrated(version, data))
  {
  }

  /** Two registries that agree on the tokens from position `i` on give the same walk. */
  lemma {:induction false} WalkAgrees<T>(reg1: Registry<T>, reg2: Registry<T>, versions: seq<Key>, i: nat, data: T)
    requires i <= |versions|
    requires forall j :: i <= j < |versions| ==> (versions[j] in reg1 <==> versions[j] in reg2)
    requires forall j :: i <= j < |versions| && versions[j] in reg1 ==> reg1[versions[j]] == reg2[versions[j]]
    ensures Walk(reg1, versions, i, data) == Walk(reg2, versions, i, data)
    decreases |versions| - i
  {
    if i < |versions| && !Falsy(versions[i]) && versions[i] in reg1 {
      WalkAgrees(reg1, reg2, versions, i + 1, AsFunction(reg1[versions[i]])(Clone(data)));
    }
  }

  /** Walking a list with one more token is walking the list, then that token. */
  lemma {:induction false} WalkAppend<T>(reg: Registry<T>, versions: seq<Key>, k: Key, i: nat, data: T)
    requires i <= |versions|
    ensures Walk(reg, versions + [k], i, data)
         == match Walk(reg, versions, i, data)
            case Err(e) => Err(e)
            case Ok(x) =>
              if Falsy(k) then Err(KeyNotFound)
              else if k !in reg then Err(MigrationNotFound(k))
              else Ok(AsFunction(reg[k])(Clone(x)))
    decreases |versions| - i
  {
    var vs := versions + [k];
    if i == |versions| {
      assert vs[i] == k;
      if !Falsy(k) && k in reg {
        assert Walk(reg, vs, i + 1, AsFunction(reg[k])(Clone(data))) == Ok(AsFunction(reg[k])(Clone(data)));
      }
    } else {
      assert vs[i] == versions[i];
      if !Falsy(versions[i]) && versions[i] in reg {
        WalkAppend(reg, versions, k, i + 1, AsFunction(reg[versions[i]])(Clone(data)));
      }
    }
  }

  /** The walk over a list extended by a fresh truthy token registered as `fn` is the
      walk over the list followed by `fn`. */
  lemma WalkAfterNext<T>(reg: Registry<T>, versions: seq<Key>, v: Key, fn: T -> T, i: nat, data: T)
    requires i <= |versions|
    requires v !in versions && !Falsy(v)
    ensures Walk(reg[v := Step(fn)], versions + [v], i, data)
         == match Walk(reg, versions, i, data)
            case Ok(x) => Ok(fn(x))
            case Err(e) => Err(e)
  {
    var reg' := reg[v := Step(fn)];
    WalkAppend(reg', versions, v, i, data);
    WalkAgrees(reg', reg, versions, i, data);
  }

  /** If a second handle finds the start token at the same position, ends with `v`, and
      its walk is the first handle's walk followed by `fn`, so is its migration. */
  lemma MigrateFollowsWalk<T>(reg1: Registry<T>, h1: Handle, reg2: Registry<T>, h2: Handle,
                              v: Key, fn: T -> T, start: Key, data: T)
    requires start in h1.versions && start in h2.versions
    requires IndexOf(h2.versions, start) == IndexOf(h1.versions, start)
    requires h2.versions[|h2.versions| - 1] == v
    requires Walk(reg2, h2.versions, IndexOf(h1.versions, start) + 1, data)
          == match Walk(reg1, h1.versions, IndexOf(h1.versions, start) + 1, data)
             case Ok(x) => Ok(fn(x))
             case Err(e) => Err(e)
    ensures Migrate(reg2, h2, start, data)
        == match Migrate(reg1, h1, start, data)
           case Ok(m) => Ok(Migrated(v, fn(m.result)))
           case Err(e) => Err(e)
  {
    MigrateByWalk(reg1, h1, start, data);
    MigrateByWalk(reg2, h2, start, data);
  }

  /** Migrating over a registry and list extended by a fresh truthy token registered as
      `fn` is migrating over the old ones, then running `fn` and reporting the new token. */
  lemma MigrateAfterAppend<T>(reg: Registry<T>, versions: seq<Key>, v: Key, fn: T -> T, start: Key, data: T)
    requires v !in versions && !Falsy(v)
    requires start in versions
    ensures Migrate(reg[v := Step(fn)], Handle(versions + [v]), start, data)
        == match Migrate(reg, Handle(versions), start, data)
           case Ok(m) => Ok(Migrated(v, fn(m.result)))
           case Err(e) => Err(e)
  {
    var p := IndexOf(versions, start);
    var extended := versions + [v];
    assert extended[|extended| - 1] == v && extended[p] == start;
    IndexOfAppend(versions, [v], start);
    WalkAfterNext(reg, versions, v, fn, p + 1, data);
    MigrateFollowsWalk(reg, Handle(versions), reg[v := Step(fn)], Handle(extended), v, fn, start, data);
  }

  /** `next` with a fresh truthy token extends every migration of the new handle by
      running `fn` last and reporting the new token. */
  lemma NextExtendsMigration<T>(reg: Registry<T>, h: Handle, v: Key, fn: T -> T, start: Key, data: T)
    requires v !in h.versions && !Falsy(v)
    requires start != v
    ensures var b := Next(reg, h, v, fn);
      Migrate(b.registry, b.handle, start, data)
        == match Migrate(reg, h, start, data)
           case Ok(m) => Ok(Migrated(v, fn(m.result)))
           case Err(e) => Err(e)
  {
    if start in h.versions {
      MigrateAfterAppend(reg, h.versions, v, fn, start, data);
    }
  }

  /** A `next` through another handle of the same root is invisible to a handle that does
      not list the written token. */
  lemma SiblingNextInvisible<T>(reg: Registry<T>, h: Handle, v: Key, fn: T -> T, other: Handle, start: Key, data: T)
    requires v !in other.versions
    ensures Migrate(Next(reg, h, v, fn).registry, other, start, data) == Migrate(reg, other, start, data)
  {
    var reg' := reg[v := Step(fn)];
    assert Next(reg, h, v, fn).registry == reg';
    if start in other.versions {
      var p := IndexOf(other.versions, start);
      WalkAgrees(reg', reg, other.versions, p + 1, data);
      MigrateByWalk(reg', other, start, data);
      MigrateByWalk(reg, other, start, data);
    }
  }

  /** A `next` through any handle of the same root keeps every other handle well-formed. */
  lemma NextKeepsSiblingsWellFormed<T>(reg: Registry<T>, h: Handle, v: Key, fn: T -> T, other: Handle)
    requires WellFormed(reg, other)
    ensures WellFormed(Next(reg, h, v, fn).registry, other)
  {
  }

  /** The chain "1": () => 100, "2": x => x + 1, "3": x => x * 10 of the drafts' tests. */
  function Example(): Built<int> {
    var root := Versioned(Str("1"), () => 100);
    var two := Next(root.registry, root.handle, Str("2"), x => x + 1);
    Next(two.registry, two.handle, Str("3"), x => x * 10)
  }

  /** From "1" both later steps run: (520 + 1) * 10. */
  lemma ExampleFromFirst()
    ensures Migrate(Example().registry, Example().handle, Str("1"), 520) == Ok(Migrated(Str("3"), 5210))
  {
    var b := Example();
    var reg, vs := b.registry, b.handle.versions;
    assert vs == [Str("1"), Str("2"), Str("3")];
    assert Walk(reg, vs, 3, 5210) == Ok(5210);
    assert Walk(reg, vs, 2, 521) == Ok(5210);
    assert Walk(reg, vs, 1, 520) == Ok(5210);
    assert IndexOf(vs, Str("1")) == 0;
  }

  /** From "2" only the last step runs: 520 * 10. */
  lemma ExampleFromSecond()
    ensures Migrate(Example().registry, Example().handle, Str("2"), 520) == Ok(Migrated(Str("3"), 5200))
  {
    var b := Example();
    var reg, vs := b.registry, b.handle.versions;
    assert vs == [Str("1"), Str("2"), Str("3")];
    assert Walk(reg, vs, 3, 5200) == Ok(5200);
    assert Walk(reg, vs, 2, 520) == Ok(5200);
    assert IndexOf(vs, Str("2")) == 1;
  }

  /** From the latest token "3" the data comes back unchanged, and an unknown token "4"
      is refused. */
  lemma ExampleFromLatestAndUnknown()
    ensures Migrate(Example().registry, Example().handle, Str("3"), 520) == Ok(Migrated(Str("3"), 520))
    ensures Migrate(Example().registry, Example().handle, Str("4"), 520) == Err(VersionNotFound(Str("4")))
  {
    var b := Example();
    var vs := b.handle.versions;
    assert vs == [Str("1"), Str("2"), Str("3")];
    assert IndexOf(vs, Str("3")) == 2;
    assert Walk(b.registry, vs, 3, 520) == Ok(520);
    assert Str("4") !in vs;
  }

  /** As written, two branches from one root that both declare token "2" share one record
      slot: the later `next` replaces the step the earlier branch registered, so the earlier
      handle computes 520 * 10 instead of 520 + 1. */
  lemma SiblingNextOverwrites()
    ensures
      var root := Versioned(Str("1"), () => 100);
      var a := Next(root.registry, root.handle, Str("2"), x => x + 1);
      var b := Next(a.registry, root.handle, Str("2"), x => x * 10);
      && Migrate(a.registry, a.handle, Str("1"), 520) == Ok(Migrated(Str("2"), 521))
      && Migrate(b.registry, a.handle, Str("1"), 520) == Ok(Migrated(Str("2"), 5200))
  {
    var root := Versioned(Str("1"), () => 100);
    var a := Next(root.registry, root.handle, Str("2"), x => x + 1);
    assert IndexOf(a.handle.versions, Str("1")) == 0;
  }

  /** As written, re-declaring the first token "1" on a path makes it that path's latest
      token while its first position stays 0: migrating from the latest token runs every
      step again, the producer's slot now holding x * 10, and gives 5210 instead of 520. */
  lemma RedeclaredLatestReruns()
    ensures
      var root := Versioned(Str("1"), () => 100);
      var two := Next(root.registry, root.handle, Str("2"), x => x + 1);
      var again := Next(two.registry, two.handle, Str("1"), x => x * 10);
      Migrate(again.registry, again.handle, Str("1"), 520) == Ok(Migrated(Str("1"), 5210))
  {
    var root := Versioned(Str("1"), () => 100);
    var two := Next(root.registry, root.handle, Str("2"), x => x + 1);
    var again := Next(two.registry, two.handle, Str("1"), x => x * 10);
    var reg, vs := again.registry, again.handle.versions;
    assert vs == [Str("1"), Str("2"), Str("1")];
    assert IndexOf(vs, Str("1")) == 0;
    assert Walk(reg, vs, 3, 5210) == Ok(5210);
    assert Walk(reg, vs, 2, 521) == Ok(5210);
    assert Walk(reg, vs, 1, 520) == Ok(5210);
  }
}
