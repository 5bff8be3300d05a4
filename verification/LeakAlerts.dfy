/**
 The two-speed leak alert: frequent quick checks that report big and growing leaks once per
 new high, and rarer detailed checks that list the ten biggest and re-base the memory.
 */
module LeakAlerts {
  import opened PackedWord
  import opened LeakGroups

  const TEN_MIB: nat := 10 * 1024 * 1024
  const TOP: nat := 10

  datatype Level = Warning | Critical

  datatype Report = Report(level: Level, leak: StackAllocs)

  /** What one check sees: the outstanding size of every group. */
  datatype Check = Check(detailed: bool, sizes: map<LeakKey, U64>)

  function SizesOf(groups: map<LeakKey, StackAllocs>): map<LeakKey, U64> {
    map k | k in groups :: groups[k].size
  }

  predicate NewOrGrown(previous: map<LeakKey, U64>, k: LeakKey, size: U64) {
    k in previous ==> size > previous[k]
  }

  predicate Alarming(previous: map<LeakKey, U64>, k: LeakKey, size: U64) {
    size > TEN_MIB && NewOrGrown(previous, k, size)
  }

  /** The remembered sizes after a check. */
  function Remembered(previous: map<LeakKey, U64>, check: Check): map<LeakKey, U64> {
    previous + map k | k in check.sizes && (check.detailed || Alarming(previous, k, check.sizes[k])) :: check.sizes[k]
  }

  function Memory(checks: seq<Check>): map<LeakKey, U64> {
    if checks == [] then map[] else Remembered(Memory(checks[..|checks| - 1]), checks[|checks| - 1])
  }

  // ---- The memory in closed form ----

  /** Check `i` still counts for `k`: it is the last detailed check that saw `k`, or a later
      quick check that saw it above ten MiB. */
  predicate Counts(checks: seq<Check>, k: LeakKey, i: nat) {
    && i < |checks|
    && k in checks[i].sizes
    && (checks[i].detailed || checks[i].sizes[k] > TEN_MIB)
    && forall j :: i < j < |checks| && checks[j].detailed ==> k !in checks[j].sizes
  }

  ghost predicate IsHigh(checks: seq<Check>, k: LeakKey, size: U64) {
    && (exists i: nat :: Counts(checks, k, i) && checks[i].sizes[k] == size)
    && (forall i: nat :: Counts(checks, k, i) ==> checks[i].sizes[k] <= size)
  }

  lemma CountsBefore(checks: seq<Check>, check: Check, k: LeakKey, i: nat)
    requires i < |checks|
    ensures Counts(checks + [check], k, i) <==> Counts(checks, k, i) && !(check.detailed && k in check.sizes)
  {
    var more := checks + [check];
    assert more[|checks|] == check;
    assert forall j :: 0 <= j < |checks| ==> more[j] == checks[j];
  }

  /** Over any run of checks, the remembered size of a group is the greatest among its size at
      the last detailed check that saw it and its sizes above ten MiB at the quick checks
      since; it has none if there is no such check. */
  lemma {:induction false} MemoryIsTheHigh(checks: seq<Check>, k: LeakKey)
    ensures k in Memory(checks) <==> exists i: nat :: Counts(checks, k, i)
    ensures k in Memory(checks) ==> IsHigh(checks, k, Memory(checks)[k])
    decreases |checks|
  {
    if checks != [] {
      var n := |checks| - 1;
      var before, check := checks[..n], checks[n];
      assert checks == before + [check];
      MemoryIsTheHigh(before, k);
      forall i: nat | i < n
        ensures Counts(checks, k, i) <==> Counts(before, k, i) && !(check.detailed && k in check.sizes)
      {
        CountsBefore(before, check, k, i);
      }
      if k in check.sizes && (check.detailed || check.sizes[k] > TEN_MIB) {
        assert Counts(checks, k, n);
        if !check.detailed && k in Memory(before) && check.sizes[k] <= Memory(before)[k] {
          var i: nat :| Counts(before, k, i) && before[i].sizes[k] == Memory(before)[k];
          assert Counts(checks, k, i) && checks[i].sizes[k] == Memory(checks)[k];
        }
      } else {
        assert !Counts(checks, k, n);
        if k in Memory(before) {
          var i: nat :| Counts(before, k, i) && before[i].sizes[k] == Memory(before)[k];
          assert Counts(checks, k, i) && checks[i].sizes[k] == Memory(checks)[k];
        }
      }
    }
  }

  /** A quick check reports a group exactly when it is above ten MiB and above everything that
      still counts for it. */
  lemma {:induction false} AlarmIffNewHigh(checks: seq<Check>, k: LeakKey, size: U64)
    ensures Alarming(Memory(checks), k, size)
       <==> size > TEN_MIB && forall i: nat :: Counts(checks, k, i) ==> checks[i].sizes[k] < size
  {
    MemoryIsTheHigh(checks, k);
    if k in Memory(checks) {
      var i: nat :| Counts(checks, k, i) && checks[i].sizes[k] == Memory(checks)[k];
    }
  }

  // ---- How often one group can be reported ----

  /** Check `i` is a quick check that reports `k`. */
  predicate AlarmAt(checks: seq<Check>, k: LeakKey, i: nat)
    requires i < |checks|
  {
    && !checks[i].detailed
    && k in checks[i].sizes
    && Alarming(Memory(checks[..i]), k, checks[i].sizes[k])
  }

  predicate NotRebased(checks: seq<Check>, k: LeakKey, from: nat, until: nat)
    requires until <= |checks|
  {
    forall j :: from <= j < until && checks[j].detailed ==> k !in checks[j].sizes
  }

  /** Between two detailed checks that see a group, its reported sizes strictly increase. */
  lemma AlarmsIncrease(checks: seq<Check>, k: LeakKey, i: nat, j: nat)
    requires i < j < |checks| && AlarmAt(checks, k, i) && AlarmAt(checks, k, j)
    requires NotRebased(checks, k, i, j)
    ensures checks[i].sizes[k] < checks[j].sizes[k]
  {
    AlarmIffNewHigh(checks[..j], k, checks[j].sizes[k]);
    assert Counts(checks[..j], k, i);
  }

  function Alarms(checks: seq<Check>, k: LeakKey, from: nat, until: nat): nat
    requires from <= until <= |checks|
    decreases until
  {
    if from == until then 0
    else Alarms(checks, k, from, until - 1) + if AlarmAt(checks, k, until - 1) then 1 else 0
  }

  /** ... so a group that stays within `most` bytes is reported at most `most` minus ten MiB
      times in between. */
  lemma {:induction false} AlarmsAreBounded(checks: seq<Check>, k: LeakKey, from: nat, until: nat, most: nat)
    requires from <= until <= |checks| && NotRebased(checks, k, from, until)
    requires forall i :: from <= i < until && k in checks[i].sizes ==> checks[i].sizes[k] <= most
    ensures var n := Alarms(checks, k, from, until);
      n > 0 ==> k in Memory(checks[..until]) && n + TEN_MIB <= Memory(checks[..until])[k] <= most
    ensures Alarms(checks, k, from, until) + TEN_MIB <= most || Alarms(checks, k, from, until) == 0
    decreases until
  {
    if from < until {
      AlarmsAreBounded(checks, k, from, until - 1, most);
      assert checks[..until][..until - 1] == checks[..until - 1];
      assert Memory(checks[..until]) == Remembered(Memory(checks[..until - 1]), checks[until - 1]);
    }
  }

  // ---- Ranking ----

  function GroupKey(leak: StackAllocs): LeakKey {
    LeakKey(leak.pid, leak.stackId)
  }

  predicate Descending(leaks: seq<StackAllocs>) {
    forall i, j :: 0 <= i < j < |leaks| ==> leaks[i].size >= leaks[j].size
  }

  predicate DistinctGroups(leaks: seq<StackAllocs>) {
    forall i, j :: 0 <= i < j < |leaks| ==> GroupKey(leaks[i]) != GroupKey(leaks[j])
  }

  /** `leaks` lists exactly the groups of `chosen`, each once. */
  ghost predicate Lists(leaks: seq<StackAllocs>, groups: map<LeakKey, StackAllocs>, chosen: set<LeakKey>) {
    && DistinctGroups(leaks)
    && (forall i :: 0 <= i < |leaks| ==>
          GroupKey(leaks[i]) in chosen && GroupKey(leaks[i]) in groups && groups[GroupKey(leaks[i])] == leaks[i])
    && (forall k :: k in chosen ==> exists i :: 0 <= i < |leaks| && GroupKey(leaks[i]) == k)
  }

  method InsertBySize(sorted: seq<StackAllocs>, leak: StackAllocs) returns (r: seq<StackAllocs>)
    requires Descending(sorted)
    ensures Descending(r) && multiset(r) == multiset(sorted) + multiset{leak}
  {
    var i := 0;
    while i < |sorted| && sorted[i].size >= leak.size
      invariant 0 <= i <= |sorted|
      invariant forall j :: 0 <= j < i ==> sorted[j].size >= leak.size
    {
      i := i + 1;
    }
    r := sorted[..i] + [leak] + sorted[i..];
    InsertedDescends(sorted, leak, i);
    assert sorted == sorted[..i] + sorted[i..];
  }

  lemma InsertedDescends(sorted: seq<StackAllocs>, leak: StackAllocs, i: nat)
    requires Descending(sorted) && i <= |sorted|
    requires forall j :: 0 <= j < i ==> sorted[j].size >= leak.size
    requires i < |sorted| ==> sorted[i].size < leak.size
    ensures Descending(sorted[..i] + [leak] + sorted[i..])
  {
    var r := sorted[..i] + [leak] + sorted[i..];
    assert forall j :: i < j < |r| ==> r[j] == sorted[j - 1];
    assert forall j :: i < j < |sorted| ==> sorted[i].size >= sorted[j].size;
  }

  /** The library sort: by size, largest first; the order of equal sizes is left open. */
  method SortBySize(leaks: seq<StackAllocs>) returns (sorted: seq<StackAllocs>)
    ensures Descending(sorted) && multiset(sorted) == multiset(leaks)
  {
    sorted := [];
    for i := 0 to |leaks|
      invariant Descending(sorted) && multiset(sorted) == multiset(leaks[..i])
    {
      sorted := InsertBySize(sorted, leaks[i]);
      assert leaks[..i + 1] == leaks[..i] + [leaks[i]];
    }
    assert leaks[..|leaks|] == leaks;
  }

  lemma {:induction false} OnceEach(leaks: seq<StackAllocs>, leak: StackAllocs)
    requires DistinctGroups(leaks)
    ensures multiset(leaks)[leak] <= 1
    decreases |leaks|
  {
    if leaks != [] {
      var n := |leaks| - 1;
      assert leaks == leaks[..n] + [leaks[n]];
      OnceEach(leaks[..n], leak);
      assert forall i :: 0 <= i < n ==> GroupKey(leaks[i]) != GroupKey(leaks[n]);
      assert leaks[n] !in leaks[..n];
    }
  }

  lemma TwiceCounted(leaks: seq<StackAllocs>, i: nat, j: nat)
    requires i < j < |leaks|
    ensures leaks[i] == leaks[j] ==> multiset(leaks)[leaks[i]] >= 2
  {
    assert leaks == leaks[..i] + [leaks[i]] + leaks[i + 1..j] + [leaks[j]] + leaks[j + 1..];
  }

  lemma ReorderedLists(leaks: seq<StackAllocs>, sorted: seq<StackAllocs>,
                       groups: map<LeakKey, StackAllocs>, chosen: set<LeakKey>)
    requires Lists(leaks, groups, chosen) && multiset(sorted) == multiset(leaks)
    ensures Lists(sorted, groups, chosen)
  {
    forall i | 0 <= i < |sorted|
      ensures GroupKey(sorted[i]) in chosen && GroupKey(sorted[i]) in groups && groups[GroupKey(sorted[i])] == sorted[i]
    {
      assert sorted[i] in multiset(leaks);
    }
    forall k | k in chosen
      ensures exists i :: 0 <= i < |sorted| && GroupKey(sorted[i]) == k
    {
      var j :| 0 <= j < |leaks| && GroupKey(leaks[j]) == k;
      assert leaks[j] in multiset(sorted);
    }
    forall i, j | 0 <= i < j < |sorted|
      ensures GroupKey(sorted[i]) != GroupKey(sorted[j])
    {
      OnceEach(leaks, sorted[i]);
      TwiceCounted(sorted, i, j);
      assert sorted[i] in multiset(leaks) && sorted[j] in multiset(leaks);
    }
  }

  /** `leaks` are the `limit` biggest groups of `chosen`, biggest first, or all of them if
      there are fewer. */
  ghost predicate Biggest(leaks: seq<StackAllocs>, groups: map<LeakKey, StackAllocs>, chosen: set<LeakKey>,
                          limit: nat)
  {
    && |leaks| == (if |chosen| < limit then |chosen| else limit)
    && Descending(leaks)
    && DistinctGroups(leaks)
    && (forall i :: 0 <= i < |leaks| ==>
          GroupKey(leaks[i]) in chosen && GroupKey(leaks[i]) in groups && groups[GroupKey(leaks[i])] == leaks[i])
    && (forall k :: k in chosen && k in groups ==> ListedOrSmaller(leaks, k, groups[k].size))
  }

  predicate ListedOrSmaller(leaks: seq<StackAllocs>, k: LeakKey, size: U64) {
    (exists i :: 0 <= i < |leaks| && GroupKey(leaks[i]) == k)
    || (forall i :: 0 <= i < |leaks| ==> leaks[i].size >= size)
  }

  function KeysOf(leaks: seq<StackAllocs>): set<LeakKey> {
    set i | 0 <= i < |leaks| :: GroupKey(leaks[i])
  }

  lemma {:induction false} DistinctCount(leaks: seq<StackAllocs>)
    requires DistinctGroups(leaks)
    ensures |KeysOf(leaks)| == |leaks|
    decreases |leaks|
  {
    if leaks != [] {
      var n := |leaks| - 1;
      DistinctCount(leaks[..n]);
      assert KeysOf(leaks) == KeysOf(leaks[..n]) + {GroupKey(leaks[n])};
      assert GroupKey(leaks[n]) !in KeysOf(leaks[..n]);
    }
  }

  lemma PrefixIsBiggest(sorted: seq<StackAllocs>, groups: map<LeakKey, StackAllocs>, chosen: set<LeakKey>,
                        n: nat, limit: nat)
    requires Lists(sorted, groups, chosen) && Descending(sorted)
    requires n == if |sorted| < limit then |sorted| else limit
    ensures Biggest(sorted[..n], groups, chosen, limit)
  {
    var top := sorted[..n];
    assert |top| == if |chosen| < limit then |chosen| else limit by {
      DistinctCount(sorted);
      assert KeysOf(sorted) == chosen;
    }
    forall k | k in chosen && k in groups
      ensures ListedOrSmaller(top, k, groups[k].size)
    {
      var j :| 0 <= j < |sorted| && GroupKey(sorted[j]) == k;
      if j < n {
        assert GroupKey(top[j]) == k;
      }
    }
  }

  // ---- One check ----

  /** The groups a check wants to report. */
  function Chosen(previous: map<LeakKey, U64>, groups: map<LeakKey, StackAllocs>, detailed: bool,
                  threshold: U64): set<LeakKey>
  {
    set k | k in groups && Reportable(previous, k, groups[k].size, detailed, threshold)
  }

  predicate Reportable(previous: map<LeakKey, U64>, k: LeakKey, size: U64, detailed: bool, threshold: U64) {
    if detailed then size >= threshold else Alarming(previous, k, size)
  }

  // ---- Only new or growing leaks? ----

  /** All the groups listed are new or have grown since they were last remembered. */
  predicate OnlyNewOrGrown(previous: map<LeakKey, U64>, leaks: seq<StackAllocs>) {
    forall i :: 0 <= i < |leaks| ==> NewOrGrown(previous, GroupKey(leaks[i]), leaks[i].size)
  }

  /** Qualifies for a detailed report although it is neither new nor grown. */
  predicate Stale(previous: map<LeakKey, U64>, k: LeakKey, size: U64, threshold: U64) {
    size >= threshold && k in previous && size <= previous[k]
  }

  ghost predicate AnyStale(previous: map<LeakKey, U64>, groups: map<LeakKey, StackAllocs>, threshold: U64) {
    exists k :: k in groups && Stale(previous, k, groups[k].size, threshold)
  }

  /** A quick check reports new or growing leaks only. */
  lemma QuickIsNewOrGrown(previous: map<LeakKey, U64>, groups: map<LeakKey, StackAllocs>,
                          leaks: seq<StackAllocs>, threshold: U64, chosen: set<LeakKey>)
    requires chosen == Chosen(previous, groups, false, threshold) && Biggest(leaks, groups, chosen, |chosen|)
    ensures OnlyNewOrGrown(previous, leaks)
  {
  }

  lemma FewAreAllListed(leaks: seq<StackAllocs>, groups: map<LeakKey, StackAllocs>, chosen: set<LeakKey>, limit: nat)
    requires Biggest(leaks, groups, chosen, limit) && |chosen| <= limit
    ensures KeysOf(leaks) == chosen
  {
    DistinctCount(leaks);
    assert KeysOf(leaks) <= chosen;
    assert |chosen - KeysOf(leaks)| == |chosen| - |KeysOf(leaks)|;
  }

  /** A quick check reports exactly the groups above ten MiB and above everything that still counts
      for them. */
  lemma QuickReportsIff(checks: seq<Check>, groups: map<LeakKey, StackAllocs>, threshold: U64,
                        leaks: seq<StackAllocs>, chosen: set<LeakKey>, k: LeakKey)
    requires chosen == Chosen(Memory(checks), groups, false, threshold) && Biggest(leaks, groups, chosen, |chosen|)
    requires k in groups
    ensures k in KeysOf(leaks)
       <==> && groups[k].size > 10 * 1024 * 1024
            && forall i: nat :: Counts(checks, k, i) ==> checks[i].sizes[k] < groups[k].size
  {
    FewAreAllListed(leaks, groups, chosen, |chosen|);
    AlarmIffNewHigh(checks, k, groups[k].size);
  }

  ghost predicate ReportsNewHighs(checks: seq<Check>, groups: map<LeakKey, StackAllocs>, leaks: seq<StackAllocs>) {
    forall k :: k in groups ==> (k in KeysOf(leaks) <==>
      && groups[k].size > 10 * 1024 * 1024
      && forall i: nat :: Counts(checks, k, i) ==> checks[i].sizes[k] < groups[k].size)
  }

  /** Ten of the groups at or above the threshold are listed, or all if there are fewer, and none
      is left out that is bigger than one listed. */
  ghost predicate ReportsTopTen(threshold: U64, groups: map<LeakKey, StackAllocs>, leaks: seq<StackAllocs>) {
    var qualifying := set k | k in groups && groups[k].size >= threshold;
    && KeysOf(leaks) <= qualifying
    && |KeysOf(leaks)| == |leaks| == (if |qualifying| < 10 then |qualifying| else 10)
    && forall k, i :: k in qualifying && k !in KeysOf(leaks) && 0 <= i < |leaks| ==> leaks[i].size >= groups[k].size
  }

  lemma DetailedReports(previous: map<LeakKey, U64>, groups: map<LeakKey, StackAllocs>, threshold: U64,
                        leaks: seq<StackAllocs>)
    requires Biggest(leaks, groups, Chosen(previous, groups, true, threshold), TOP)
    ensures ReportsTopTen(threshold, groups, leaks)
  {
    var qualifying := set k | k in groups && groups[k].size >= threshold;
    DistinctCount(leaks);
    assert qualifying == Chosen(previous, groups, true, threshold);
    forall k, i | k in qualifying && k !in KeysOf(leaks) && 0 <= i < |leaks|
      ensures leaks[i].size >= groups[k].size
    {
      assert ListedOrSmaller(leaks, k, groups[k].size);
    }
  }

  function Bigger(groups: map<LeakKey, StackAllocs>, chosen: set<LeakKey>, size: U64): set<LeakKey> {
    set k | k in chosen && k in groups && groups[k].size > size
  }

  function AsBig(groups: map<LeakKey, StackAllocs>, chosen: set<LeakKey>, size: U64): set<LeakKey> {
    set k | k in chosen && k in groups && groups[k].size >= size
  }

  lemma SmallerSet<T>(a: set<T>, b: set<T>)
    requires a <= b
    ensures |a| <= |b|
  {
    assert |b - a| == |b| - |a|;
  }

  /** A group with fewer than `limit` others as big is listed, whatever the order of ties. */
  lemma TopIsListed(leaks: seq<StackAllocs>, groups: map<LeakKey, StackAllocs>, chosen: set<LeakKey>,
                    limit: nat, k: LeakKey)
    requires Biggest(leaks, groups, chosen, limit) && k in chosen && k in groups
    requires |AsBig(groups, chosen, groups[k].size)| <= limit
    ensures k in KeysOf(leaks)
  {
    if k !in KeysOf(leaks) {
      var asBig := AsBig(groups, chosen, groups[k].size);
      DistinctCount(leaks);
      assert KeysOf(leaks) <= asBig - {k};
      SmallerSet(KeysOf(leaks), asBig - {k});
      FewAreAllListed(leaks, groups, chosen, limit);
      assert false;
    }
  }

  /** And one with `limit` bigger ones is not. */
  lemma BuriedIsNotListed(leaks: seq<StackAllocs>, groups: map<LeakKey, StackAllocs>, chosen: set<LeakKey>,
                          limit: nat, i: nat)
    requires Biggest(leaks, groups, chosen, limit) && i < |leaks|
    ensures |Bigger(groups, chosen, leaks[i].size)| < limit
  {
    var bigger, k := Bigger(groups, chosen, leaks[i].size), GroupKey(leaks[i]);
    DistinctCount(leaks);
    forall j | j in bigger
      ensures j in KeysOf(leaks) - {k}
    {
      assert ListedOrSmaller(leaks, j, groups[j].size);
    }
    SmallerSet(bigger, KeysOf(leaks) - {k});
  }

  ghost predicate DistinctSizes(groups: map<LeakKey, StackAllocs>, chosen: set<LeakKey>) {
    forall j, k :: j in chosen && k in chosen && j in groups && k in groups && j != k ==>
      groups[j].size != groups[k].size
  }

  /** Every stale group has ten bigger ones that qualify. */
  ghost predicate StaleAreBuried(previous: map<LeakKey, U64>, groups: map<LeakKey, StackAllocs>, threshold: U64) {
    forall k :: k in groups && Stale(previous, k, groups[k].size, threshold) ==>
      |Bigger(groups, Chosen(previous, groups, true, threshold), groups[k].size)| >= TOP
  }

  lemma BuriedIsEnough(previous: map<LeakKey, U64>, groups: map<LeakKey, StackAllocs>,
                       leaks: seq<StackAllocs>, threshold: U64)
    requires Biggest(leaks, groups, Chosen(previous, groups, true, threshold), TOP)
    requires StaleAreBuried(previous, groups, threshold)
    ensures OnlyNewOrGrown(previous, leaks)
  {
    forall i | 0 <= i < |leaks|
      ensures NewOrGrown(previous, GroupKey(leaks[i]), leaks[i].size)
    {
      BuriedIsNotListed(leaks, groups, Chosen(previous, groups, true, threshold), TOP, i);
    }
  }

  /** A stale group among the ten that no tie can push out is listed. */
  lemma StaleInTop(previous: map<LeakKey, U64>, groups: map<LeakKey, StackAllocs>,
                   leaks: seq<StackAllocs>, threshold: U64, k: LeakKey)
    requires Biggest(leaks, groups, Chosen(previous, groups, true, threshold), TOP)
    requires k in groups && Stale(previous, k, groups[k].size, threshold)
    requires |AsBig(groups, Chosen(previous, groups, true, threshold), groups[k].size)| <= TOP
    ensures !OnlyNewOrGrown(previous, leaks)
  {
    TopIsListed(leaks, groups, Chosen(previous, groups, true, threshold), TOP, k);
    var i :| 0 <= i < |leaks| && GroupKey(leaks[i]) == k;
    assert !NewOrGrown(previous, GroupKey(leaks[i]), leaks[i].size);
  }

  /** A detailed check lists new and grown groups only, if and only if every qualifying group
      that is neither has ten bigger ones; and with at most ten qualifying, if and only if there is
      none. The one thing left open is which of several groups of equal size the tenth is. */
  lemma DetailedIsNewOrGrownIff(previous: map<LeakKey, U64>, groups: map<LeakKey, StackAllocs>,
                                leaks: seq<StackAllocs>, threshold: U64, chosen: set<LeakKey>)
    requires chosen == Chosen(previous, groups, true, threshold) && Biggest(leaks, groups, chosen, TOP)
    ensures StaleAreBuried(previous, groups, threshold) ==> OnlyNewOrGrown(previous, leaks)
    ensures DistinctSizes(groups, chosen) || |chosen| <= TOP ==>
      (OnlyNewOrGrown(previous, leaks) <==> StaleAreBuried(previous, groups, threshold))
    ensures |chosen| <= TOP ==> (OnlyNewOrGrown(previous, leaks) <==> !AnyStale(previous, groups, threshold))
  {
    if StaleAreBuried(previous, groups, threshold) {
      BuriedIsEnough(previous, groups, leaks, threshold);
    } else if DistinctSizes(groups, chosen) || |chosen| <= TOP {
      var k :| k in groups && Stale(previous, k, groups[k].size, threshold)
        && |Bigger(groups, chosen, groups[k].size)| < TOP;
      NextAfterBigger(groups, chosen, k);
      StaleInTop(previous, groups, leaks, threshold, k);
    }
    if |chosen| <= TOP {
      NoneIsBuried(previous, groups, threshold);
    }
  }

  /** Without ties, a group and the bigger ones are all that are as big as it. */
  lemma NextAfterBigger(groups: map<LeakKey, StackAllocs>, chosen: set<LeakKey>, k: LeakKey)
    requires k in chosen && k in groups
    ensures DistinctSizes(groups, chosen) ==>
      |AsBig(groups, chosen, groups[k].size)| == |Bigger(groups, chosen, groups[k].size)| + 1
    ensures |AsBig(groups, chosen, groups[k].size)| <= |chosen|
  {
    var bigger, asBig := Bigger(groups, chosen, groups[k].size), AsBig(groups, chosen, groups[k].size);
    SmallerSet(asBig, chosen);
    if DistinctSizes(groups, chosen) {
      assert asBig == bigger + {k};
    }
  }

  lemma NoneIsBuried(previous: map<LeakKey, U64>, groups: map<LeakKey, StackAllocs>, threshold: U64)
    requires |Chosen(previous, groups, true, threshold)| <= TOP
    ensures StaleAreBuried(previous, groups, threshold) <==> !AnyStale(previous, groups, threshold)
  {
    var chosen := Chosen(previous, groups, true, threshold);
    forall k | k in groups && Stale(previous, k, groups[k].size, threshold)
      ensures |Bigger(groups, chosen, groups[k].size)| < TOP
    {
      SmallerSet(Bigger(groups, chosen, groups[k].size), chosen - {k});
    }
  }

  /** After a detailed check every group of its table is remembered at its size. */
  lemma RebasedAt(history: seq<Check>, groups: map<LeakKey, StackAllocs>)
    ensures var previous := Memory(history + [Check(true, SizesOf(groups))]);
      forall k :: k in groups ==> k in previous && previous[k] == groups[k].size
  {
    var check := Check(true, SizesOf(groups));
    assert (history + [check])[..|history|] == history;
    assert Memory(history + [check]) == Remembered(Memory(history), check);
  }

  lemma DetailedIgnoresMemory(p: map<LeakKey, U64>, q: map<LeakKey, U64>, groups: map<LeakKey, StackAllocs>,
                              threshold: U64)
    ensures Chosen(p, groups, true, threshold) == Chosen(q, groups, true, threshold)
  {
  }

  /** Two detailed checks of the same live table, whatever came before: the second lists as many
      groups as the first, every one of them remembered at the very size it has, and the same
      ones if at most ten qualify. */
  lemma SecondDetailedCheckRepeats(history: seq<Check>, groups: map<LeakKey, StackAllocs>, threshold: U64,
                                   previous: map<LeakKey, U64>,
                                   first: seq<StackAllocs>, second: seq<StackAllocs>)
    requires Biggest(first, groups, Chosen(Memory(history), groups, true, threshold), TOP)
    requires previous == Memory(history + [Check(true, SizesOf(groups))])
    requires Biggest(second, groups, Chosen(previous, groups, true, threshold), TOP)
    ensures |second| == |first|
    ensures forall i :: 0 <= i < |second| ==> Stale(previous, GroupKey(second[i]), second[i].size, threshold)
    ensures |Chosen(previous, groups, true, threshold)| <= TOP ==> KeysOf(second) == KeysOf(first)
  {
    var chosen := Chosen(previous, groups, true, threshold);
    RebasedAt(history, groups);
    DetailedIgnoresMemory(Memory(history), previous, groups, threshold);
    if |chosen| <= TOP {
      FewAreAllListed(first, groups, chosen, TOP);
      FewAreAllListed(second, groups, chosen, TOP);
    }
  }

  /** The smallest case: one allocation of the threshold size is reported by both checks. */
  lemma OneLeakTwice(e: Entry, threshold: U64, first: seq<StackAllocs>, second: seq<StackAllocs>)
    requires e.1.stackId >= 0 && e.1.size >= threshold
    requires var groups := Grouped([e]);
      && Biggest(first, groups, Chosen(map[], groups, true, threshold), TOP)
      && Biggest(second, groups, Chosen(Memory([Check(true, SizesOf(groups))]), groups, true, threshold), TOP)
    ensures first == second && |second| == 1
    ensures !OnlyNewOrGrown(Memory([Check(true, SizesOf(Grouped([e])))]), second)
  {
    var groups, check := Grouped([e]), Check(true, SizesOf(Grouped([e])));
    GroupOfOne(e);
    assert [] + [check] == [check];
    assert Chosen(map[], groups, true, threshold) == {KeyOf(e)};
    SecondDetailedCheckRepeats([], groups, threshold, Memory([check]), first, second);
    assert GroupKey(first[0]) == KeyOf(e) && GroupKey(second[0]) == KeyOf(e);
  }

  lemma GroupOfOne(e: Entry)
    requires e.1.stackId >= 0
    ensures Grouped([e]).Keys == {KeyOf(e)} && Grouped([e])[KeyOf(e)].size == e.1.size
  {
    assert [e][..0] == [];
    assert Grouped([e]) == Absorbed(map[], e);
  }

  function LeaksOf(reports: seq<Report>): (leaks: seq<StackAllocs>)
    ensures |leaks| == |reports|
    ensures forall i :: 0 <= i < |reports| ==> leaks[i] == reports[i].leak
  {
    if reports == [] then [] else LeaksOf(reports[..|reports| - 1]) + [reports[|reports| - 1].leak]
  }

  predicate AllAt(reports: seq<Report>, level: Level) {
    forall i :: 0 <= i < |reports| ==> reports[i].level == level
  }

  /** What the groups outside `todo` change in the memory. */
  function Changes(before: map<LeakKey, U64>, groups: map<LeakKey, StackAllocs>, detailed: bool,
                   todo: set<LeakKey>): map<LeakKey, U64>
  {
    map k | k in groups && k !in todo && (detailed || Alarming(before, k, groups[k].size)) :: groups[k].size
  }

  lemma ChangesOneMore(before: map<LeakKey, U64>, groups: map<LeakKey, StackAllocs>, detailed: bool,
                       todo: set<LeakKey>, key: LeakKey)
    requires key in todo && key in groups
    ensures var m, m' := Changes(before, groups, detailed, todo), Changes(before, groups, detailed, todo - {key});
      && key !in m
      && m' == if detailed || Alarming(before, key, groups[key].size) then m[key := groups[key].size] else m
  {
    var m, m' := Changes(before, groups, detailed, todo), Changes(before, groups, detailed, todo - {key});
    if detailed || Alarming(before, key, groups[key].size) {
      assert m'.Keys == m.Keys + {key};
    } else {
      assert m'.Keys == m.Keys;
    }
  }

  lemma SameForNewKey(before: map<LeakKey, U64>, changes: map<LeakKey, U64>, key: LeakKey, size: U64)
    requires key !in changes
    ensures Alarming(before + changes, key, size) <==> Alarming(before, key, size)
    ensures (before + changes)[key := size] == before + changes[key := size]
  {
  }

  lemma ChangesAtEnds(before: map<LeakKey, U64>, groups: map<LeakKey, StackAllocs>, detailed: bool)
    ensures Changes(before, groups, detailed, groups.Keys) == map[]
    ensures before + Changes(before, groups, detailed, {}) == Remembered(before, Check(detailed, SizesOf(groups)))
  {
    var check := Check(detailed, SizesOf(groups));
    assert Changes(before, groups, detailed, {})
        == map k | k in check.sizes && (check.detailed || Alarming(before, k, check.sizes[k])) :: check.sizes[k];
  }

  method Emit(leaks: seq<StackAllocs>, level: Level) returns (reports: seq<Report>)
    ensures LeaksOf(reports) == leaks && AllAt(reports, level)
  {
    reports := [];
    for i := 0 to |leaks|
      invariant |reports| == i && AllAt(reports, level)
      invariant forall j :: 0 <= j < i ==> reports[j].leak == leaks[j]
    {
      reports := reports + [Report(level, leaks[i])];
    }
  }

  /** Sorts the chosen groups and reports them: all of them after a quick check, the first ten
      after a detailed one. */
  method Rank(leaksToReport: seq<StackAllocs>, detailed: bool,
              ghost groups: map<LeakKey, StackAllocs>, ghost chosen: set<LeakKey>)
    returns (reports: seq<Report>)
    requires Lists(leaksToReport, groups, chosen)
    ensures AllAt(reports, if detailed then Warning else Critical)
    ensures Biggest(LeaksOf(reports), groups, chosen, if detailed then TOP else |chosen|)
  {
    var sorted := SortBySize(leaksToReport);
    ReorderedLists(leaksToReport, sorted, groups, chosen);
    var n := |sorted|;
    if detailed && |sorted| > 10 {
      n := 10;
    }
    reports := Emit(sorted[..n], if detailed then Warning else Critical);
    DistinctCount(sorted);
    assert KeysOf(sorted) == chosen;
    PrefixIsBiggest(sorted, groups, chosen, n, if detailed then TOP else |chosen|);
  }

  class LeakMonitor {
    var previousStacks: map<LeakKey, U64>
    const minLeakThreshold: U64

    /** The checks that have completed, oldest first. */
    ghost var history: seq<Check>

    ghost predicate Valid()
      reads this
    {
      previousStacks == Memory(history)
    }

    constructor (minLeakThreshold: U64)
      ensures Valid() && history == [] && this.minLeakThreshold == minLeakThreshold
    {
      previousStacks := map[];
      this.minLeakThreshold := minLeakThreshold;
      history := [];
    }

    /** The loop body for one group: whether to report it, and what to remember. */
    method Consider(key: LeakKey, size: U64, detailed: bool) returns (wanted: bool)
      modifies this`previousStacks
      ensures wanted == Reportable(old(previousStacks), key, size, detailed, minLeakThreshold)
      ensures previousStacks
           == if detailed || Alarming(old(previousStacks), key, size) then old(previousStacks)[key := size]
              else old(previousStacks)
    {
      if detailed {
        wanted := size >= minLeakThreshold;
        previousStacks := previousStacks[key := size];
      } else {
        var existed := key in previousStacks;
        wanted := size > 10 * 1024 * 1024 && (!existed || size > previousStacks[key]);
        if wanted {
          previousStacks := previousStacks[key := size];
        }
      }
    }

    /** Picks the groups to report and updates the remembered sizes, visiting the groups in no
        particular order. */
    method SelectLeaks(leakMap: map<LeakKey, StackAllocs>, detailed: bool) returns (leaksToReport: seq<StackAllocs>)
      requires forall k :: k in leakMap ==> GroupKey(leakMap[k]) == k
      modifies this`previousStacks
      ensures previousStacks == Remembered(old(previousStacks), Check(detailed, SizesOf(leakMap)))
      ensures Lists(leaksToReport, leakMap, Chosen(old(previousStacks), leakMap, detailed, minLeakThreshold))
      ensures forall k :: k in leakMap ==> (k in KeysOf(leaksToReport) <==>
        if detailed then leakMap[k].size >= minLeakThreshold
        else
          && leakMap[k].size > 10 * 1024 * 1024
          && (k in old(previousStacks) ==> leakMap[k].size > old(previousStacks)[k]))
    {
      ghost var before := previousStacks;
      leaksToReport := [];
      var todo := leakMap.Keys;
      ChangesAtEnds(before, leakMap, detailed);
      while todo != {}
        invariant todo <= leakMap.Keys
        invariant previousStacks == before + Changes(before, leakMap, detailed, todo)
        invariant Lists(leaksToReport, leakMap, Chosen(before, leakMap, detailed, minLeakThreshold) - todo)
        decreases todo
      {
        var key :| key in todo;
        var current := leakMap[key];
        ChangesOneMore(before, leakMap, detailed, todo, key);
        ghost var changes := Changes(before, leakMap, detailed, todo);
        ghost var was := leaksToReport;
        var wanted := Consider(key, current.size, detailed);
        if wanted {
          leaksToReport := leaksToReport + [current];
        }
        SameForNewKey(before, changes, key, current.size);
        ListedOneMore(was, current, wanted, leakMap, Chosen(before, leakMap, detailed, minLeakThreshold), todo, key);
        todo := todo - {key};
      }
      assert Chosen(before, leakMap, detailed, minLeakThreshold) - {}
          == Chosen(before, leakMap, detailed, minLeakThreshold);
      ListedKeys(leaksToReport, leakMap, Chosen(before, leakMap, detailed, minLeakThreshold));
    }

    /** A whole check. If reading the live table fails, nothing is reported or remembered. */
    method CheckForNewLeaks(entries: seq<Entry>, iterated: bool, detailed: bool)
      returns (ok: bool, reports: seq<Report>)
      requires Valid()
      modifies this
      ensures Valid() && ok == iterated
      ensures !iterated ==> reports == [] && history == old(history)
      ensures iterated ==>
        var groups := Grouped(entries);
        var chosen := Chosen(Memory(old(history)), groups, detailed, minLeakThreshold);
        && history == old(history) + [Check(detailed, SizesOf(groups))]
        && (forall i :: 0 <= i < |reports| ==> reports[i].level == if detailed then Warning else Critical)
        && Biggest(LeaksOf(reports), groups, chosen, if detailed then TOP else |chosen|)
      ensures iterated && !detailed ==> ReportsNewHighs(old(history), Grouped(entries), LeaksOf(reports))
      ensures iterated && detailed ==> ReportsTopTen(minLeakThreshold, Grouped(entries), LeaksOf(reports))
    {
      var leakMap := GroupLeaks(entries);
      if !iterated {
        return false, [];
      }
      ok := true;
      GroupKeysAgree(entries);
      ghost var chosen := Chosen(previousStacks, leakMap, detailed, minLeakThreshold);
      var leaksToReport := SelectLeaks(leakMap, detailed);
      reports := Rank(leaksToReport, detailed, leakMap, chosen);
      ReportsDescribed(history, leakMap, detailed, minLeakThreshold, LeaksOf(reports), chosen);
      history := history + [Check(detailed, SizesOf(leakMap))];
      assert history[..|history| - 1] == old(history);
    }
  }

  /** What the list of a check contains, in both modes. */
  lemma ReportsDescribed(checks: seq<Check>, groups: map<LeakKey, StackAllocs>, detailed: bool, threshold: U64,
                         leaks: seq<StackAllocs>, chosen: set<LeakKey>)
    requires chosen == Chosen(Memory(checks), groups, detailed, threshold)
    requires Biggest(leaks, groups, chosen, if detailed then TOP else |chosen|)
    ensures if detailed then ReportsTopTen(threshold, groups, leaks) else ReportsNewHighs(checks, groups, leaks)
  {
    if detailed {
      DetailedReports(Memory(checks), groups, threshold, leaks);
    } else {
      forall k | k in groups
        ensures k in KeysOf(leaks) <==>
          && groups[k].size > 10 * 1024 * 1024
          && forall i: nat :: Counts(checks, k, i) ==> checks[i].sizes[k] < groups[k].size
      {
        QuickReportsIff(checks, groups, threshold, leaks, chosen, k);
      }
    }
  }

  lemma ListedKeys(leaks: seq<StackAllocs>, groups: map<LeakKey, StackAllocs>, chosen: set<LeakKey>)
    requires Lists(leaks, groups, chosen)
    ensures KeysOf(leaks) == chosen
  {
  }

  lemma GroupKeysAgree(entries: seq<Entry>)
    ensures forall k :: k in Grouped(entries) ==> GroupKey(Grouped(entries)[k]) == k
  {
    GroupedIsGrouping(entries);
    forall k | k in Grouped(entries)
      ensures GroupKey(Grouped(entries)[k]) == k
    {
      assert GroupedAt(Grouped(entries), entries, k);
    }
  }

  lemma ListedOneMore(leaks: seq<StackAllocs>, current: StackAllocs, wanted: bool,
                      groups: map<LeakKey, StackAllocs>, chosen: set<LeakKey>, todo: set<LeakKey>, key: LeakKey)
    requires Lists(leaks, groups, chosen - todo) && key in todo
    requires key in groups && groups[key] == current && GroupKey(current) == key
    requires wanted <==> key in chosen
    ensures Lists(if wanted then leaks + [current] else leaks, groups, chosen - (todo - {key}))
  {
    var more := if wanted then leaks + [current] else leaks;
    forall k | k in chosen - (todo - {key})
      ensures exists i :: 0 <= i < |more| && GroupKey(more[i]) == k
    {
      if k == key {
        assert GroupKey(more[|leaks|]) == k;
      } else {
        assert k in chosen - todo;
        var i :| 0 <= i < |leaks| && GroupKey(leaks[i]) == k;
        assert GroupKey(more[i]) == k;
      }
    }
  }
}
