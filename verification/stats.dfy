/**
 * The statistics page of the web application (BeFit/Controllers/StatsController.cs):
 * the caller's entries in sessions started during the last 28 days, grouped by
 * exercise type, one row per group with the number of entries, the total of
 * sets times repetitions, the mean and the maximum weight, ordered by name.
 */
module Stats {
  import opened Wrappers
  import opened Tables
  import opened Time
  import Text
  import Sorting
  import opened WebModels
  import opened WebStore

  const WindowDays: int := 28

  /** The label of the group of entries whose exercise type is missing. */
  const UnknownLabel: string := "Nieznany"

  /** `DateTime.Now.AddDays(-28)`. */
  function WindowStart(now: Instant): (from: Instant)
    ensures now - from == WindowDays * TicksPerDay
  {
    AddDays(now, -WindowDays)
  }

  /** The join's session side: a session of the caller started at or after `from`. */
  predicate InWindow(s: TrainingSession, uid: string, from: Instant) {
    s.UserId == uid && s.StartedAt >= from
  }

  /** The entry's session id matches a session of the join's session side. */
  predicate JoinsWindow(e: TrainingEntry, sessions: seq<TrainingSession>, uid: string, from: Instant) {
    exists i :: 0 <= i < |sessions| && sessions[i].Id == e.TrainingSessionId && InWindow(sessions[i], uid, from)
  }

  /**
   * The joined and filtered entries, in table order. Session ids are a primary
   * key, so the join yields each entry at most once.
   */
  function CountedEntries(entries: seq<TrainingEntry>, sessions: seq<TrainingSession>, uid: string, from: Instant)
    : (r: seq<TrainingEntry>)
    ensures forall e :: e in r <==> e in entries && e.UserId == uid && JoinsWindow(e, sessions, uid, from)
    ensures |r| <= |entries|
  {
    Where(entries, (e: TrainingEntry) => e.UserId == uid && JoinsWindow(e, sessions, uid, from))
  }

  /**
   * With unique session ids, an entry is counted exactly when it is the
   * caller's, its session exists and is the caller's, and that session started
   * no earlier than 28 days before `now`.
   */
  lemma CountedIff(entries: seq<TrainingEntry>, sessions: seq<TrainingSession>, uid: string, now: Instant, e: TrainingEntry)
    requires UniqueKeys(sessions, SessionKey)
    ensures e in CountedEntries(entries, sessions, uid, WindowStart(now)) <==>
      e in entries && e.UserId == uid
      && FirstWithKey(sessions, SessionKey, e.TrainingSessionId).Some?
      && FirstWithKey(sessions, SessionKey, e.TrainingSessionId).value.UserId == uid
      && FirstWithKey(sessions, SessionKey, e.TrainingSessionId).value.StartedAt >= AddDays(now, -28)
  {
    var from := WindowStart(now);
    if JoinsWindow(e, sessions, uid, from) {
      var i :| 0 <= i < |sessions| && sessions[i].Id == e.TrainingSessionId && InWindow(sessions[i], uid, from);
      FirstWithKeyUnique(sessions, SessionKey, sessions[i]);
    }
    match FirstWithKey(sessions, SessionKey, e.TrainingSessionId)
    case None =>
    case Some(s) =>
      var i :| 0 <= i < |sessions| && sessions[i] == s;
  }

  // ---- Grouping ----

  /** The key of `GroupBy(te => te.ExerciseType)`: the entry's type, or none when it is missing. */
  datatype GroupKey = Known(exerciseType: ExerciseType) | Unknown

  function GroupOf(e: TrainingEntry, types: seq<ExerciseType>): (k: GroupKey)
    ensures k.Known? ==> k.exerciseType in types && k.exerciseType.Id == e.ExerciseTypeId
    ensures k.Unknown? <==> !HasKey(types, ExerciseTypeKey, e.ExerciseTypeId)
  {
    match FirstWithKey(types, ExerciseTypeKey, e.ExerciseTypeId)
    case Some(t) => Known(t)
    case None => Unknown
  }

  /** `g.Key != null ? g.Key.Name : "Nieznany"`. */
  function Label(k: GroupKey): (s: string)
    ensures k.Unknown? ==> s == UnknownLabel
    ensures k.Known? ==> s == k.exerciseType.Name
  {
    if k.Known? then k.exerciseType.Name else UnknownLabel
  }

  /** The distinct group keys of `es`, in order of first appearance. */
  function GroupKeys(es: seq<TrainingEntry>, types: seq<ExerciseType>): (ks: seq<GroupKey>)
    ensures forall k :: k in ks <==> exists e :: e in es && GroupOf(e, types) == k
    ensures forall i, j :: 0 <= i < j < |ks| ==> ks[i] != ks[j]
  {
    if es == [] then []
    else
      var init := es[..|es| - 1];
      var ks := GroupKeys(init, types);
      var k := GroupOf(es[|es| - 1], types);
      assert es == init + [es[|es| - 1]];
      if k in ks then ks else ks + [k]
  }

  /** The entries of one group, in their order. */
  function Group(es: seq<TrainingEntry>, types: seq<ExerciseType>, k: GroupKey): (g: seq<TrainingEntry>)
    ensures forall e :: e in g <==> e in es && GroupOf(e, types) == k
    ensures |g| <= |es|
  {
    Where(es, (e: TrainingEntry) => GroupOf(e, types) == k)
  }

  // ---- Aggregates ----

  /** `Sum(te => te.Sets * te.Repetitions)`. */
  function SumRepetitions(g: seq<TrainingEntry>): int {
    if g == [] then 0 else g[0].Sets * g[0].Repetitions + SumRepetitions(g[1..])
  }

  function SumWeight(g: seq<TrainingEntry>): real {
    if g == [] then 0.0 else g[0].Weight + SumWeight(g[1..])
  }

  /** `Max(te => te.Weight)`: a weight of the group that no other exceeds. */
  function MaxWeight(g: seq<TrainingEntry>): (m: real)
    requires g != []
    ensures forall e :: e in g ==> e.Weight <= m
    ensures exists e :: e in g && e.Weight == m
  {
    if |g| == 1 then g[0].Weight
    else
      var m := MaxWeight(g[1..]);
      assert forall e :: e in g <==> e == g[0] || e in g[1..];
      if g[0].Weight >= m then g[0].Weight else m
  }

  /** `m` added to itself `n` times. */
  function Times(n: nat, m: real): real {
    if n == 0 then 0.0 else Times(n - 1, m) + m
  }

  lemma {:induction false} TimesIsProduct(n: nat, m: real)
    ensures Times(n, m) == n as real * m
  {
    if n > 0 {
      TimesIsProduct(n - 1, m);
      assert n as real * m == (n - 1) as real * m + m;
    }
  }

  /** A sum of weights none of which exceeds `m` is at most `|g|` times `m`. */
  lemma {:induction false} SumWeightAtMost(g: seq<TrainingEntry>, m: real)
    requires forall e :: e in g ==> e.Weight <= m
    ensures SumWeight(g) <= |g| as real * m
  {
    SumWeightAtMostTimes(g, m);
    TimesIsProduct(|g|, m);
  }

  lemma {:induction false} SumWeightAtMostTimes(g: seq<TrainingEntry>, m: real)
    requires forall e :: e in g ==> e.Weight <= m
    ensures SumWeight(g) <= Times(|g|, m)
  {
    if g != [] {
      var rest := g[1..];
      assert g[0] in g;
      assert forall e :: e in rest ==> e in g;
      SumWeightAtMostTimes(rest, m);
    }
  }

  /**
   * One statistics row: the group's label, its number of entries, its total
   * repetitions, the mean of its weights and its greatest weight. The mean
   * never exceeds the maximum.
   */
  function Aggregate(k: GroupKey, g: seq<TrainingEntry>): (row: ExerciseStatistics)
    requires g != []
    ensures row.ExerciseTypeName == Label(k)
    ensures row.TimesPerformed == |g| >= 1
    ensures row.TotalRepetitions == SumRepetitions(g)
    ensures row.AverageWeight * |g| as real == SumWeight(g)
    ensures (forall e :: e in g ==> e.Weight <= row.MaxWeight) && (exists e :: e in g && e.Weight == row.MaxWeight)
    ensures row.AverageWeight <= row.MaxWeight
  {
    var m := MaxWeight(g);
    SumWeightAtMostTimes(g, m);
    MeanAtMostBound(SumWeight(g), |g|, m);
    ExerciseStatistics(Label(k), |g|, SumRepetitions(g), SumWeight(g) / |g| as real, m)
  }

  /** A mean times the count is the sum, and a sum of at most `n` times `m` has a mean of at most `m`. */
  lemma MeanAtMostBound(sum: real, n: nat, m: real)
    requires n > 0 && sum <= Times(n, m)
    ensures (sum / n as real) * n as real == sum && sum / n as real <= m
  {
    TimesIsProduct(n, m);
    var a := sum / n as real;
    assert a * n as real == sum;
    assert (a - m) * n as real <= 0.0;
  }

  /** Every key of `GroupKeys(es)` has a non-empty group. */
  lemma GroupsNonEmpty(es: seq<TrainingEntry>, types: seq<ExerciseType>)
    ensures forall k :: k in GroupKeys(es, types) ==> Group(es, types, k) != []
  {
    forall k | k in GroupKeys(es, types) ensures Group(es, types, k) != [] {
      var e :| e in es && GroupOf(e, types) == k;
      assert e in Group(es, types, k);
    }
  }

  /** The grouped rows, one per distinct key, in order of first appearance. */
  function Rows(es: seq<TrainingEntry>, types: seq<ExerciseType>): (rows: seq<ExerciseStatistics>)
    ensures |rows| == |GroupKeys(es, types)|
    ensures forall i :: 0 <= i < |rows| ==>
      Group(es, types, GroupKeys(es, types)[i]) != []
      && rows[i] == Aggregate(GroupKeys(es, types)[i], Group(es, types, GroupKeys(es, types)[i]))
  {
    var ks := GroupKeys(es, types);
    GroupsNonEmpty(es, types);
    seq(|ks|, i requires 0 <= i < |ks| => Aggregate(ks[i], Group(es, types, ks[i])))
  }

  // ---- Ordering and the action ----

  /** `OrderBy(s => s.ExerciseTypeName)` under SQLite's binary collation. */
  predicate LabelLeq(a: ExerciseStatistics, b: ExerciseStatistics) {
    Text.OrdinalLeq(a.ExerciseTypeName, b.ExerciseTypeName)
  }

  lemma LabelLeqTotal()
    ensures Sorting.Total(LabelLeq) && Sorting.Transitive(LabelLeq)
  {
    forall a: ExerciseStatistics, b: ExerciseStatistics ensures LabelLeq(a, b) || LabelLeq(b, a) {
      Text.OrdinalTotal(a.ExerciseTypeName, b.ExerciseTypeName);
    }
    forall a: ExerciseStatistics, b: ExerciseStatistics, c: ExerciseStatistics | LabelLeq(a, b) && LabelLeq(b, c)
      ensures LabelLeq(a, c)
    {
      Text.OrdinalTransitive(a.ExerciseTypeName, b.ExerciseTypeName, c.ExerciseTypeName);
    }
  }

  /** The statistics of the caller at `now`: the grouped rows, ascending by label. */
  function Statistics(entries: seq<TrainingEntry>, sessions: seq<TrainingSession>, types: seq<ExerciseType>,
                      uid: string, now: Instant): (r: seq<ExerciseStatistics>)
    ensures multiset(r) == multiset(Rows(CountedEntries(entries, sessions, uid, WindowStart(now)), types))
    ensures forall i, j :: 0 <= i < j < |r| ==> Text.OrdinalLeq(r[i].ExerciseTypeName, r[j].ExerciseTypeName)
  {
    LabelLeqTotal();
    var r := Sorting.Sort(Rows(CountedEntries(entries, sessions, uid, WindowStart(now)), types), LabelLeq);
    Sorting.SortedPairwise(r, LabelLeq);
    r
  }

  /** `Index`: NotFound without a user, otherwise the page of the caller's statistics. */
  function Index(userId: Option<string>, now: Instant,
                 entries: seq<TrainingEntry>, sessions: seq<TrainingSession>, types: seq<ExerciseType>)
    : (r: ActionResult<seq<ExerciseStatistics>>)
    ensures userId.None? <==> r == NotFound
    ensures r != NotFound ==> r.Page? && r.model == Statistics(entries, sessions, types, userId.value, now)
  {
    if userId.None? then NotFound else Page(Statistics(entries, sessions, types, userId.value, now))
  }

  // ---- Properties of the result ----

  /** A reordering of the grouped rows has one row per group. */
  lemma ReorderedRowsCount(es: seq<TrainingEntry>, types: seq<ExerciseType>, r: seq<ExerciseStatistics>)
    requires multiset(r) == multiset(Rows(es, types))
    ensures |r| == |GroupKeys(es, types)|
  {
    assert |r| == |multiset(r)| == |multiset(Rows(es, types))| == |Rows(es, types)|;
  }

  /** A reordering of the grouped rows holds the aggregate of every group. */
  lemma ReorderedRowsCoverGroups(es: seq<TrainingEntry>, types: seq<ExerciseType>, r: seq<ExerciseStatistics>)
    requires multiset(r) == multiset(Rows(es, types))
    ensures forall k :: k in GroupKeys(es, types) ==> Group(es, types, k) != [] && Aggregate(k, Group(es, types, k)) in r
  {
    var rows := Rows(es, types);
    var ks := GroupKeys(es, types);
    GroupsNonEmpty(es, types);
    forall k | k in ks ensures Aggregate(k, Group(es, types, k)) in r {
      var i :| 0 <= i < |ks| && ks[i] == k;
      assert rows[i] == Aggregate(k, Group(es, types, k));
      assert rows[i] in multiset(rows);
    }
  }

  /** Every row of a reordering of the grouped rows is the aggregate of a group. */
  lemma ReorderedRowsAreGroups(es: seq<TrainingEntry>, types: seq<ExerciseType>, r: seq<ExerciseStatistics>)
    requires multiset(r) == multiset(Rows(es, types))
    ensures forall row :: row in r ==>
      exists k :: k in GroupKeys(es, types) && Group(es, types, k) != [] && row == Aggregate(k, Group(es, types, k))
  {
    var rows := Rows(es, types);
    var ks := GroupKeys(es, types);
    forall row | row in r ensures exists k :: k in ks && Group(es, types, k) != [] && row == Aggregate(k, Group(es, types, k)) {
      assert row in multiset(rows);
      var i :| 0 <= i < |rows| && rows[i] == row;
      assert ks[i] in ks;
    }
  }

  /**
   * Exactly one row per distinct group of counted entries: as many rows as
   * groups, each group's aggregate among them, and nothing else.
   */
  lemma OneRowPerGroup(entries: seq<TrainingEntry>, sessions: seq<TrainingSession>, types: seq<ExerciseType>,
                       uid: string, now: Instant)
    ensures var c := CountedEntries(entries, sessions, uid, WindowStart(now));
      var r := Statistics(entries, sessions, types, uid, now);
      |r| == |GroupKeys(c, types)|
      && (forall k :: k in GroupKeys(c, types) ==> Group(c, types, k) != [] && Aggregate(k, Group(c, types, k)) in r)
      && (forall row :: row in r ==> exists k :: k in GroupKeys(c, types) && Group(c, types, k) != [] && row == Aggregate(k, Group(c, types, k)))
  {
    var c := CountedEntries(entries, sessions, uid, WindowStart(now));
    var r := Statistics(entries, sessions, types, uid, now);
    ReorderedRowsCount(c, types, r);
    ReorderedRowsCoverGroups(c, types, r);
    ReorderedRowsAreGroups(c, types, r);
  }

  /** Every row counts at least one entry, and its mean weight is at most its maximum. */
  lemma RowBounds(entries: seq<TrainingEntry>, sessions: seq<TrainingSession>, types: seq<ExerciseType>,
                  uid: string, now: Instant)
    ensures forall row :: row in Statistics(entries, sessions, types, uid, now) ==>
      row.TimesPerformed >= 1 && row.AverageWeight <= row.MaxWeight
  {
    OneRowPerGroup(entries, sessions, types, uid, now);
  }

  /** When every entry's exercise type exists, no row is the unknown group. */
  lemma NoUnknownGroupWhenTypesResolve(es: seq<TrainingEntry>, types: seq<ExerciseType>)
    requires forall e :: e in es ==> HasKey(types, ExerciseTypeKey, e.ExerciseTypeId)
    ensures Unknown !in GroupKeys(es, types)
  {
  }

  // ---- Every counted entry is counted once ----

  /** The sum of `TimesPerformed` over the rows. */
  function SumTimes(rows: seq<ExerciseStatistics>): int {
    if rows == [] then 0 else rows[0].TimesPerformed + SumTimes(rows[1..])
  }

  lemma {:induction false} SumTimesAppend(a: seq<ExerciseStatistics>, b: seq<ExerciseStatistics>)
    ensures SumTimes(a + b) == SumTimes(a) + SumTimes(b)
  {
    if a != [] {
      assert (a + b)[0] == a[0];
      assert (a + b)[1..] == a[1..] + b;
      SumTimesAppend(a[1..], b);
    } else {
      assert a + b == b;
    }
  }

  /** Reordering rows keeps the sum. */
  lemma {:induction false} SumTimesPermutation(a: seq<ExerciseStatistics>, b: seq<ExerciseStatistics>)
    requires multiset(a) == multiset(b)
    ensures SumTimes(a) == SumTimes(b)
  {
    if a != [] {
      var x := a[0];
      assert x in multiset(b);
      var j :| 0 <= j < |b| && b[j] == x;
      var rest := b[..j] + b[j + 1..];
      assert b == b[..j] + ([x] + b[j + 1..]);
      SumTimesAppend(b[..j], [x] + b[j + 1..]);
      SumTimesAppend(b[..j], b[j + 1..]);
      assert ([x] + b[j + 1..])[1..] == b[j + 1..];
      assert a == [x] + a[1..];
      assert multiset(rest) == multiset(b) - multiset{x};
      SumTimesPermutation(a[1..], rest);
    }
  }

  /** The sizes of the groups of `ks`, added up. */
  function GroupSizes(es: seq<TrainingEntry>, types: seq<ExerciseType>, ks: seq<GroupKey>): int {
    if ks == [] then 0 else |Group(es, types, ks[0])| + GroupSizes(es, types, ks[1..])
  }

  /** How often `k` occurs in `ks`. */
  function Occurrences(ks: seq<GroupKey>, k: GroupKey): nat {
    if ks == [] then 0 else (if ks[0] == k then 1 else 0) + Occurrences(ks[1..], k)
  }

  lemma {:induction false} OccurrencesDistinct(ks: seq<GroupKey>, k: GroupKey)
    requires forall i, j :: 0 <= i < j < |ks| ==> ks[i] != ks[j]
    ensures Occurrences(ks, k) == if k in ks then 1 else 0
  {
    if ks != [] {
      var t := ks[1..];
      assert forall i, j :: 0 <= i < j < |t| ==> t[i] != t[j] by {
        forall i, j | 0 <= i < j < |t| ensures t[i] != t[j] {
          assert t[i] == ks[i + 1] && t[j] == ks[j + 1];
        }
      }
      OccurrencesDistinct(t, k);
      if ks[0] == k {
        assert k !in t by {
          forall j | 0 <= j < |t| ensures t[j] != k {
            assert t[j] == ks[j + 1];
          }
        }
      } else {
        assert k in ks <==> k in t by {
          assert ks == [ks[0]] + t;
        }
      }
    }
  }

  /** Adding one entry in front adds one to the size of its own group and nothing to the others. */
  lemma {:induction false} GroupSizesCons(e: TrainingEntry, es: seq<TrainingEntry>, types: seq<ExerciseType>, ks: seq<GroupKey>)
    ensures GroupSizes([e] + es, types, ks) == Occurrences(ks, GroupOf(e, types)) + GroupSizes(es, types, ks)
  {
    if ks != [] {
      var p := (x: TrainingEntry) => GroupOf(x, types) == ks[0];
      assert ([e] + es)[1..] == es;
      assert Group([e] + es, types, ks[0]) == Where([e] + es, p);
      assert |Where([e] + es, p)| == (if p(e) then 1 else 0) + |Where(es, p)|;
      GroupSizesCons(e, es, types, ks[1..]);
    }
  }

  /** Distinct keys that cover every entry partition the entries. */
  lemma {:induction false} GroupSizesPartition(es: seq<TrainingEntry>, types: seq<ExerciseType>, ks: seq<GroupKey>)
    requires forall i, j :: 0 <= i < j < |ks| ==> ks[i] != ks[j]
    requires forall e :: e in es ==> GroupOf(e, types) in ks
    ensures GroupSizes(es, types, ks) == |es|
  {
    if es == [] {
      GroupSizesEmpty(types, ks);
    } else {
      assert es == [es[0]] + es[1..];
      GroupSizesCons(es[0], es[1..], types, ks);
      OccurrencesDistinct(ks, GroupOf(es[0], types));
      assert forall e :: e in es[1..] ==> e in es;
      GroupSizesPartition(es[1..], types, ks);
    }
  }

  lemma {:induction false} GroupSizesEmpty(types: seq<ExerciseType>, ks: seq<GroupKey>)
    ensures GroupSizes([], types, ks) == 0
  {
    if ks != [] {
      GroupSizesEmpty(types, ks[1..]);
    }
  }

  /** The counts of rows built from `ks` add up to the sizes of the groups of `ks`. */
  lemma {:induction false} SumTimesOfRows(es: seq<TrainingEntry>, types: seq<ExerciseType>, ks: seq<GroupKey>,
                                          rows: seq<ExerciseStatistics>)
    requires |rows| == |ks|
    requires forall i :: 0 <= i < |rows| ==> rows[i].TimesPerformed == |Group(es, types, ks[i])|
    ensures SumTimes(rows) == GroupSizes(es, types, ks)
  {
    if rows != [] {
      SumTimesOfRows(es, types, ks[1..], rows[1..]);
    }
  }

  /**
   * Every counted entry is counted in exactly one row: the `TimesPerformed`
   * of all rows add up to the number of counted entries.
   */
  lemma TimesPerformedTotal(entries: seq<TrainingEntry>, sessions: seq<TrainingSession>, types: seq<ExerciseType>,
                            uid: string, now: Instant)
    ensures SumTimes(Statistics(entries, sessions, types, uid, now))
         == |CountedEntries(entries, sessions, uid, WindowStart(now))|
  {
    var c := CountedEntries(entries, sessions, uid, WindowStart(now));
    SumTimesPermutation(Statistics(entries, sessions, types, uid, now), Rows(c, types));
    RowsCountEveryEntry(c, types);
  }

  /** The rows of a grouping count every entry once. */
  lemma RowsCountEveryEntry(es: seq<TrainingEntry>, types: seq<ExerciseType>)
    ensures SumTimes(Rows(es, types)) == |es|
  {
    var ks := GroupKeys(es, types);
    var rows := Rows(es, types);
    forall i | 0 <= i < |rows| ensures rows[i].TimesPerformed == |Group(es, types, ks[i])| {
    }
    SumTimesOfRows(es, types, ks, rows);
    forall e | e in es ensures GroupOf(e, types) in ks {
    }
    GroupSizesPartition(es, types, ks);
  }
}
