/** The `Map`-driven evaluator of `src/object.upkeep.ts`. `upkeep(migrations)` refuses an
    empty or missing map; the closure it returns walks the map in insertion order and runs
    every migration whose key comes after the stored version, returning `[data, version]`.
    The first migration is the producer of the initial value; like every other migration
    it is called with the current data, which it ignores. */
module Upkeep {
  import opened Outcomes
  import opened Steps

  /** A JavaScript `Map` from version strings to migrations: its keys in insertion order
      (`migrations.keys()`) and the migration stored under each (`migrations.values()`). */
  datatype Migrations<!T> = Migrations(keys: seq<string>, values: seq<T -> T>)

  /** What every `Map` satisfies: one value per key, and no key twice. */
  predicate IsMap<T>(m: Migrations<T>) {
    |m.keys| == |m.values| && Distinct(m.keys)
  }

  /** The two errors `upkeep` and its closure throw. */
  datatype Error = NoMigrations | UnknownVersion(version: string, known: seq<string>)

  /** The closure `upkeep` returns, with the contents of the map it captured. The closure
      holds the map by reference; these are the contents at the time of a call. */
  datatype Upkeeper<!T> = Upkeeper(migrations: Migrations<T>)

  /** `upkeep(migrations)`: a missing or empty map is refused at once. */
  function Upkeep<T>(migrations: Option<Migrations<T>>): (r: Result<Upkeeper<T>, Error>)
    ensures r.Ok? <==> migrations.Some? && |migrations.value.keys| > 0
    ensures r.Ok? ==> r.value.migrations == migrations.value
    ensures r.Err? ==> r.error == NoMigrations
  {
    if migrations.None? || |migrations.value.keys| == 0 then Err(NoMigrations)
    else Ok(Upkeeper(migrations.value))
  }

  /** The position the closure compares against: -1 for the empty (falsy) version,
      otherwise the version's position among the keys. */
  function StartIndex(keys: seq<string>, version: string): (p: int)
    ensures -1 <= p < |keys|
    ensures version == "" ==> p == -1
    ensures 0 <= p ==> keys[p] == version && version !in keys[..p]
    ensures version != "" && version in keys ==> 0 <= p
  {
    if version == "" then -1 else IndexOf(keys, version)
  }

  /** While the closure walks the map, the migration at position `j` runs exactly when `j`
      is past the stored version's position `first - 1`: before it, the version is still the
      stored one, and after it, the version is the key of the previous migration. */
  lemma RunsPastStart(keys: seq<string>, stored: string, current: string, j: int)
    requires Distinct(keys) && 0 <= j < |keys|
    requires stored == "" || stored in keys
    requires j <= StartIndex(keys, stored) + 1 ==> current == stored
    requires StartIndex(keys, stored) + 1 < j ==> current == keys[j - 1]
    ensures StartIndex(keys, current) < IndexOf(keys, keys[j]) <==> StartIndex(keys, stored) + 1 <= j
  {
    IndexOfDistinct(keys, j);
    if StartIndex(keys, stored) + 1 < j {
      IndexOfDistinct(keys, j - 1);
    }
  }

  /** Running the migration at `j` on the output of those from `first` up to `j` gives
      the output of those from `first` through `j`. */
  lemma {:induction false} ApplyNext<T>(fs: seq<T -> T>, first: int, j: int, state: T, data: T)
    requires 0 <= first <= j < |fs|
    requires first == j ==> state == data
    requires first < j ==> state == Apply(fs[first..j], data)
    ensures fs[j](state) == Apply(fs[first..j + 1], data)
  {
    assert fs[first..j + 1] == fs[first..j] + [fs[j]];
    ApplySnoc(fs[first..j], fs[j], data);
  }

  /** Where the closure stands after visiting the first `j` migrations: up to the stored
      version's position nothing has run; past it, the migrations from `first` to `j` have
      run in order and the version is the key of the last one. */
  ghost predicate Progress<T>(keys: seq<string>, fs: seq<T -> T>, stored: string, data: T,
                              j: int, current: string, state: T) {
    var first := StartIndex(keys, stored) + 1;
    && |fs| == |keys| && 0 <= j <= |fs|
    && (j <= first ==> state == data && current == stored)
    && (first < j ==> state == Apply(fs[first..j], data) && current == keys[j - 1])
  }

  /** One turn of the closure's loop keeps `Progress`: the migration at `j` runs exactly
      when `j` is past the stored version's position. */
  lemma Advance<T>(keys: seq<string>, fs: seq<T -> T>, stored: string, data: T,
                   j: int, current: string, state: T)
    requires Distinct(keys) && |fs| == |keys| && j < |keys|
    requires stored == "" || stored in keys
    requires Progress(keys, fs, stored, data, j, current, state)
    ensures StartIndex(keys, current) < IndexOf(keys, keys[j])
        ==> Progress(keys, fs, stored, data, j + 1, keys[j], fs[j](state))
    ensures StartIndex(keys, current) >= IndexOf(keys, keys[j])
        ==> Progress(keys, fs, stored, data, j + 1, current, state)
  {
    var first := StartIndex(keys, stored) + 1;
    RunsPastStart(keys, stored, current, j);
    if first <= j {
      ApplyNext(fs, first, j, state, data);
    }
  }

  /** One turn of the closure's loop, for the entry at position `j`: its migration runs,
      and its key becomes the version, when the key comes after the current version. */
  method Turn<T>(keys: seq<string>, fs: seq<T -> T>, stored: string, data: T,
                 j: int, current: string, state: T) returns (current': string, state': T)
    requires Distinct(keys) && |fs| == |keys| && j < |keys|
    requires stored == "" || stored in keys
    requires Progress(keys, fs, stored, data, j, current, state)
    ensures Progress(keys, fs, stored, data, j + 1, current', state')
  {
    var key, migration := keys[j], fs[j];
    var versionIndex := StartIndex(keys, current);
    var migrationIndex := IndexOf(keys, key);
    Advance(keys, fs, stored, data, j, current, state);
    if versionIndex < migrationIndex {
      state' := migration(state);
      current' := key;
    } else {
      current', state' := current, state;
    }
  }

  /** What the closure returns for a stored `version` (absent reads as ""), stated without
      its loop: an unknown non-empty version is refused when the map has any keys;
      otherwise the migrations after the version's position run, in insertion order, and
      the version reported is the map's last key (or the stored one for an empty map). */
  function Expected<T>(m: Migrations<T>, version: string, data: T): Result<(T, string), Error>
    requires |m.keys| == |m.values|
  {
    if |m.keys| > 0 && version != "" && version !in m.keys then Err(UnknownVersion(version, m.keys))
    else
      var last := if |m.keys| > 0 then m.keys[|m.keys| - 1] else version;
      Ok((Apply(m.values[StartIndex(m.keys, version) + 1..], data), last))
  }

  /** Once every migration is visited, exactly those from `first` on have run, and the
      version is the last key: the closure's answer is `Expected`. */
  lemma Finish<T>(keys: seq<string>, fs: seq<T -> T>, stored: string, data: T, current: string, state: T)
    requires |keys| == 0 || stored == "" || stored in keys
    requires Progress(keys, fs, stored, data, |fs|, current, state)
    ensures Expected(Migrations(keys, fs), stored, data) == Ok((state, current))
  {
    var first := StartIndex(keys, stored) + 1;
    var rest := fs[first..];
    assert rest == fs[first..|fs|];
    if first == |fs| {
      assert |rest| == 0;
    }
  }

  /** The closure's loop over the map's entries, in insertion order. It stops at the first
      entry when the stored version is neither empty nor a key; otherwise it visits every
      entry, running each migration that comes after the current version. */
  method Visit<T>(keys: seq<string>, fs: seq<T -> T>, stored: string, data: T)
    returns (unknown: bool, current: string, state: T)
    requires Distinct(keys) && |fs| == |keys|
    ensures unknown <==> |keys| > 0 && stored != "" && stored !in keys
    ensures !unknown ==> Progress(keys, fs, stored, data, |fs|, current, state)
  {
    current, state := stored, Clone(data);
    var j := 0;
    while j < |keys|
      invariant stored != "" && stored !in keys ==> j == 0
      invariant Progress(keys, fs, stored, data, j, current, state)
    {
      if current != "" && current !in keys {
        assert j == 0 && current == stored;
        return true, current, state;
      }
      current, state := Turn(keys, fs, stored, data, j, current, state);
      j := j + 1;
    }
    return false, current, state;
  }

  /** The closure, called with `{ version, data }`: an absent version reads as "", and the
      answer is `Expected`. */
  method Run<T>(u: Upkeeper<T>, version: Option<string>, data: T) returns (r: Result<(T, string), Error>)
    requires IsMap(u.migrations)
    ensures r == Expected(u.migrations, version.GetOr(""), data)
  {
    var keys, fs := u.migrations.keys, u.migrations.values;
    var stored := version.GetOr("");
    var unknown, current, state := Visit(keys, fs, stored, data);
    if unknown {
      return Err(UnknownVersion(stored, keys));
    }
    Finish(keys, fs, stored, data, current, state);
    return Ok((state, current));
  }

  /** Without a stored version, every migration runs in insertion order, the producer
      first, and the version reported is the last key. */
  lemma ExpectedWithoutVersion<T>(m: Migrations<T>, data: T)
    requires IsMap(m) && |m.keys| > 0
    ensures Expected(m, "", data) == Ok((Apply(m.values, data), m.keys[|m.keys| - 1]))
  {
    assert m.values[0..] == m.values;
  }

  /** From a stored key `keys[i]` that is not empty, exactly the migrations inserted after
      it run; from the last key, the data comes back unchanged. */
  lemma ExpectedFromKey<T>(m: Migrations<T>, i: int, data: T)
    requires IsMap(m) && 0 <= i < |m.keys| && m.keys[i] != ""
    ensures Expected(m, m.keys[i], data) == Ok((Apply(m.values[i + 1..], data), m.keys[|m.keys| - 1]))
    ensures i == |m.keys| - 1 ==> Expected(m, m.keys[i], data) == Ok((data, m.keys[i]))
  {
    IndexOfDistinct(m.keys, i);
    assert m.values[|m.values|..] == [];
  }
}
