/**
 Safety over whole runs that does not depend on amounts: when balances may move at
 all, and which vaults the later instructions can address.
 */
module VaultLifecycle {
  import opened Names
  import opened Epochs
  import opened VaultState

  /** Everything but the clock. */
  function Holdings(s: State): State {
    s.(now := 0)
  }

  /** What creation establishes about the vault's record and no later step changes. */
  predicate RecordSound(s: State) {
    s.vault.Some? ==>
      var v := s.vault.value;
      && |v.seed| <= NAME_LENGTH && v.storedName == Pad(v.seed)
      && Sequential(v.times) && v.times.endEpoch - v.times.startEpoch <= v.times.epochCadence
  }

  lemma {:induction false} RunKeepsRecord(s: State, steps: seq<Step>)
    requires RecordSound(s)
    ensures RecordSound(Run(s, steps)) && s.now <= Run(s, steps).now
    ensures s.vault.Some? ==> Run(s, steps).vault == s.vault
  {
    if steps != [] {
      RunKeepsRecord(s, steps[..|steps| - 1]);
    }
  }

  /** The recomputed addresses are the vault's own exactly when its name had no whitespace at the ends. */
  lemma AddressableIff(s: State)
    requires RecordSound(s) && s.vault.Some?
    ensures AddressesMatch(s) <==> Trimmed(s.vault.value.seed)
  {
    StripPadRoundTrip(s.vault.value.seed);
  }

  /** A vault created under an untrimmed name is dead: no run ever moves anything in it. */
  lemma {:induction false} UntrimmedVaultIsDead(s: State, steps: seq<Step>)
    requires RecordSound(s) && s.vault.Some? && !Trimmed(s.vault.value.seed)
    ensures Holdings(Run(s, steps)) == Holdings(s)
  {
    AddressableIff(s);
    if steps != [] {
      UntrimmedVaultIsDead(s, steps[..|steps| - 1]);
      assert !AddressesMatch(Run(s, steps[..|steps| - 1]));
    }
  }

  /** A step that moves anything in an existing vault runs after the start and no later than the end of deposits. */
  lemma HoldingsMoveInWindowOnly(s: State, step: Step)
    requires s.vault.Some?
    ensures Holdings(Apply(s, step)) != Holdings(s) ==>
              s.vault.value.times.startEpoch < s.now <= s.vault.value.times.endDeposits
  {
  }

  /** Once deposits have ended, every balance keeps its value for the rest of the run. */
  lemma {:induction false} FrozenAfterDeposits(s: State, steps: seq<Step>)
    requires RecordSound(s) && s.vault.Some? && s.vault.value.times.endDeposits < s.now
    ensures Holdings(Run(s, steps)) == Holdings(s)
  {
    if steps != [] {
      var before := steps[..|steps| - 1];
      FrozenAfterDeposits(s, before);
      RunKeepsRecord(s, before);
      HoldingsMoveInWindowOnly(Run(s, before), steps[|steps| - 1]);
    }
  }

  /** Before the epoch starts, a run that stays there leaves every balance of the vault as it was. */
  lemma {:induction false} UntouchedBeforeStart(s: State, steps: seq<Step>)
    requires RecordSound(s) && s.vault.Some?
    requires Run(s, steps).now <= s.vault.value.times.startEpoch
    ensures Holdings(Run(s, steps)) == Holdings(s)
  {
    if steps != [] {
      var before := steps[..|steps| - 1];
      UntouchedBeforeStart(s, before);
      RunKeepsRecord(s, before);
      HoldingsMoveInWindowOnly(Run(s, before), steps[|steps| - 1]);
    }
  }

  /** A vault's life: created before its epoch, so every run that reaches a balance change has passed the start. */
  lemma VaultStartsInTheFuture(s: State, name: Bytes, times: EpochTimes, jet: Jet)
    requires Genesis(s)
    ensures var s' := Apply(s, Initialize(name, times, jet));
            s'.vault.Some? ==> s'.now < times.startEpoch && RecordSound(s') && s'.vault.value.times == times
  {
  }
}
