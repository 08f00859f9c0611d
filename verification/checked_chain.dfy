/** The named chain with the builder step corrected: `next` refuses a token that the
    shared record already holds, instead of replacing the step registered under it.
    With that refusal no branch can change what another branch's `migrate` computes. */
module CheckedChain {
  import opened Outcomes
  import Steps
  import N = NamedChain

  /** The builder-time error: the token is already registered. */
  datatype Error = DuplicateVersion(version: N.Key)

  /** `next` that rejects a registered token and otherwise behaves as the drafts' `next`. */
  function Next<T>(reg: N.Registry<T>, h: N.Handle, version: N.Key, fn: T -> T): (r: Result<N.Built<T>, Error>)
    ensures r.Err? <==> version in reg
    ensures r.Err? ==> r.error == DuplicateVersion(version)
    ensures r.Ok? ==> r.value.handle.versions == h.versions + [version]
    ensures r.Ok? ==> r.value.registry == reg[version := Steps.Step(fn)]
  {
    if version in reg then Err(DuplicateVersion(version))
    else Ok(N.Next(reg, h, version, fn))
  }

  /** Whatever branch a successful `next` extends, every well-formed handle of the same
      root migrates exactly as before. */
  lemma NextIsolatesSiblings<T>(reg: N.Registry<T>, h: N.Handle, version: N.Key, fn: T -> T,
                                other: N.Handle, start: N.Key, data: T)
    requires N.WellFormed(reg, other)
    requires Next(reg, h, version, fn).Ok?
    ensures N.Migrate(Next(reg, h, version, fn).value.registry, other, start, data)
         == N.Migrate(reg, other, start, data)
  {
    assert version !in other.versions;
    N.SiblingNextInvisible(reg, h, version, fn, other, start, data);
  }

  /** A successful `next` with a truthy token extends the new handle's migrations by
      running `fn` last. */
  lemma NextExtendsMigration<T>(reg: N.Registry<T>, h: N.Handle, version: N.Key, fn: T -> T,
                                start: N.Key, data: T)
    requires N.WellFormed(reg, h) && !N.Falsy(version)
    requires Next(reg, h, version, fn).Ok?
    requires start != version
    ensures var b := Next(reg, h, version, fn).value;
      N.Migrate(b.registry, b.handle, start, data)
        == match N.Migrate(reg, h, start, data)
           case Ok(m) => Ok(N.Migrated(version, fn(m.result)))
           case Err(e) => Err(e)
  {
    assert version !in h.versions;
    N.NextExtendsMigration(reg, h, version, fn, start, data);
  }

  /** The two branches of `NamedChain.SiblingNextOverwrites`: the second declaration of
      token "2" is refused, so the first branch keeps computing 520 + 1. */
  lemma SiblingDuplicateRejected()
    ensures
      var root := N.Versioned(N.Str("1"), () => 100);
      var a := Next(root.registry, root.handle, N.Str("2"), x => x + 1);
      && a.Ok?
      && Next(a.value.registry, root.handle, N.Str("2"), x => x * 10) == Err(DuplicateVersion(N.Str("2")))
      && N.Migrate(a.value.registry, a.value.handle, N.Str("1"), 520) == Ok(N.Migrated(N.Str("2"), 521))
  {
    var root := N.Versioned(N.Str("1"), () => 100);
    var a := N.Next(root.registry, root.handle, N.Str("2"), x => x + 1);
    assert Steps.IndexOf(a.handle.versions, N.Str("1")) == 0;
  }

  /** With the check, no accepted `next` repeats a token on the new handle: every token a
      well-formed handle lists is registered, so a fresh one is not among them. */
  lemma NextKeepsTokensDistinct<T>(reg: N.Registry<T>, h: N.Handle, version: N.Key, fn: T -> T)
    requires N.WellFormed(reg, h) && Steps.Distinct(h.versions)
    requires Next(reg, h, version, fn).Ok?
    ensures Steps.Distinct(Next(reg, h, version, fn).value.handle.versions)
  {
    assert version !in h.versions;
    Steps.DistinctAppend(h.versions, version);
  }

  /** On a handle without repeated tokens, migrating from its latest token runs nothing
      and returns the data unchanged, as the drafts' `migrate` promises. */
  lemma MigrateFromLatest<T>(reg: N.Registry<T>, h: N.Handle, data: T)
    requires |h.versions| >= 1 && Steps.Distinct(h.versions)
    ensures var last := h.versions[|h.versions| - 1];
      N.Migrate(reg, h, last, data) == Ok(N.Migrated(last, data))
  {
    Steps.IndexOfDistinct(h.versions, |h.versions| - 1);
    N.MigrateFromLatest(reg, h, h.versions[|h.versions| - 1], data);
  }

  /** The path of `NamedChain.RedeclaredLatestReruns`: re-declaring "1" is refused, and
      from the latest token "2" the data comes back unchanged. */
  lemma RedeclarationRejected()
    ensures
      var root := N.Versioned(N.Str("1"), () => 100);
      var two := Next(root.registry, root.handle, N.Str("2"), x => x + 1);
      && two.Ok?
      && Next(two.value.registry, two.value.handle, N.Str("1"), x => x * 10) == Err(DuplicateVersion(N.Str("1")))
      && N.Migrate(two.value.registry, two.value.handle, N.Str("2"), 520) == Ok(N.Migrated(N.Str("2"), 520))
  {
    var root := N.Versioned(N.Str("1"), () => 100);
    var two := N.Next(root.registry, root.handle, N.Str("2"), x => x + 1);
    assert two.handle.versions == [N.Str("1"), N.Str("2")];
    assert Steps.IndexOf(two.handle.versions, N.Str("2")) == 1;
  }
}
