/** The recount against statistics that were kept by interleaved handlers. */
module ConcurrentRecount {
  import opened Sums
  import opened Ledger
  import opened Interleaving
  import opened LeakGroups
  import InterleavingHazards
  import ExclusiveHandlers

  /** Once all handlers have returned, the recount of the live table agrees with the word of a
      stack if every operation met its guard for that stack. */
  lemma {:induction false} RecountMatchesInterleaved(cfg: Config, actions: seq<Action>, s: State,
                                                     entries: seq<Entry>, stackId: Int32)
    requires s == Reached(cfg, actions) && Quiescent(s)
    requires stackId >= 0 && StackKey(stackId) in s.maps.combined && Enumerates(entries, s.maps.allocs)
    ensures
      var key := StackKey(stackId);
      InterleavingHazards.AllKeptFor(cfg, actions, key) && InterleavingHazards.AllMatchedFor(cfg, actions, key) ==>
        RecountAgrees(s.maps.combined[key], entries, stackId)
  {
    var key := StackKey(stackId);
    if InterleavingHazards.AllKeptFor(cfg, actions, key) && InterleavingHazards.AllMatchedFor(cfg, actions, key) {
      InterleavingHazards.NoMistakeForIff(cfg, actions, s, key);
      InterleavingHazards.QuietExactIffHarmless(cfg, actions, s, key);
      RecountOfFold(s.maps, entries, stackId);
    }
  }

  /** In particular on disciplined runs, for every tracked stack. */
  lemma {:induction false} RecountMatchesDisciplined(cfg: Config, actions: seq<Action>, s: State,
                                                     entries: seq<Entry>, stackId: Int32)
    requires s == Reached(cfg, actions) && Quiescent(s)
    requires stackId >= 0 && StackKey(stackId) in s.maps.combined && Enumerates(entries, s.maps.allocs)
    ensures ExclusiveHandlers.DisciplinedRun(cfg, actions) ==>
      RecountAgrees(s.maps.combined[StackKey(stackId)], entries, stackId)
  {
    if ExclusiveHandlers.DisciplinedRun(cfg, actions) {
      ExclusiveHandlers.StatisticsExactWhenQuiet(cfg, actions, s);
      RecountOfFold(s.maps, entries, stackId);
    }
  }
}
