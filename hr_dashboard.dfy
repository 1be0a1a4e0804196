/** The integer aggregations of the HR dashboard over the employee records
    (in the order the store lists them): employees per position and gender,
    employees per position with their summed match percentages, the
    per-employee match rows grouped by position, and the vacancy total over
    the jobs. */
module HRDashboard {
  import opened Records
  import opened Seqs
  import opened Text

  /** The fields the dashboard reads, and the fallback label. */
  const PositionKey: string := "position"
  const GenderKey: string := "gender"
  const PercentKey: string := "skillsPercentage"
  const Unknown: string := "Unknown"

  /** `emp.position || 'Unknown'` */
  function JobOf(e: Record): string {
    TextOr(e, PositionKey, Unknown)
  }

  /** `emp.gender || 'Unknown'` */
  function GenderOf(e: Record): string {
    TextOr(e, GenderKey, Unknown)
  }

  /** The position of every employee, in order. */
  function JobsOf(emps: seq<Record>): (r: seq<string>)
    ensures |r| == |emps|
    ensures forall i :: 0 <= i < |emps| ==> r[i] == JobOf(emps[i])
  {
    seq(|emps|, i requires 0 <= i < |emps| => JobOf(emps[i]))
  }

  lemma JobsOfSnoc(emps: seq<Record>, i: nat)
    requires i < |emps|
    ensures JobsOf(emps[..i + 1]) == JobsOf(emps[..i]) + [JobOf(emps[i])]
  {
  }

  /** The distinct positions after one more employee: that employee's
      position is appended when it is new. */
  lemma DistinctJobsStep(emps: seq<Record>, i: nat)
    requires i < |emps|
    ensures Distinct(JobsOf(emps[..i + 1])) ==
      if JobOf(emps[i]) in Distinct(JobsOf(emps[..i])) then Distinct(JobsOf(emps[..i]))
      else Distinct(JobsOf(emps[..i])) + [JobOf(emps[i])]
  {
    JobsOfSnoc(emps, i);
    DistinctSnoc(JobsOf(emps[..i]), JobOf(emps[i]));
    assert JobOf(emps[i]) in Distinct(JobsOf(emps[..i])) <==> JobOf(emps[i]) in JobsOf(emps[..i]);
  }

  /** The positions seen after adding `job`: appended when `m` has no entry for it yet. */
  function NextOrder<V>(order: seq<string>, m: map<string, V>, job: string): seq<string> {
    if job in m then order else order + [job]
  }

  /** `Object.values(acc)` for an object whose keys were added in `order`. */
  function ValuesInOrder<V>(order: seq<string>, acc: map<string, V>): (r: seq<V>)
    requires forall j :: j in order ==> j in acc
    ensures |r| == |order|
    ensures forall k :: 0 <= k < |order| ==> r[k] == acc[order[k]]
  {
    seq(|order|, k requires 0 <= k < |order| => acc[order[k]])
  }

  /** After the first `i` employees, `order` lists the positions seen so
      far, each once, in order of first appearance, and `m` is keyed by
      exactly those positions. */
  ghost predicate Seen<V>(emps: seq<Record>, i: nat, order: seq<string>, m: map<string, V>)
    requires i <= |emps|
  {
    order == Distinct(JobsOf(emps[..i])) && forall j :: j in m <==> j in order
  }

  /** The positions seen after one more employee, for a loop that keys a
      map by the positions seen so far. */
  lemma OrderStep<V>(emps: seq<Record>, i: nat, order: seq<string>, m: map<string, V>,
                     order': seq<string>, m': map<string, V>)
    requires i < |emps| && Seen(emps, i, order, m)
    requires order' == NextOrder(order, m, JobOf(emps[i]))
    requires m'.Keys == m.Keys + {JobOf(emps[i])}
    ensures Seen(emps, i + 1, order', m')
  {
    DistinctJobsStep(emps, i);
  }

  /** The employees holding position `job`, in their listed order. */
  function WithJob(emps: seq<Record>, job: string): (r: seq<Record>)
    ensures forall k :: 0 <= k < |r| ==> JobOf(r[k]) == job
  {
    if emps == [] then []
    else
      var e := emps[|emps| - 1];
      WithJob(emps[..|emps| - 1], job) + (if JobOf(e) == job then [e] else [])
  }

  lemma WithJobStep(emps: seq<Record>, i: nat, job: string)
    requires i < |emps|
    ensures WithJob(emps[..i + 1], job) ==
      WithJob(emps[..i], job) + (if JobOf(emps[i]) == job then [emps[i]] else [])
  {
    assert emps[..i + 1][..i] == emps[..i];
  }

  /** A position's group has one member per employee holding it. */
  lemma {:induction false} WithJobSize(emps: seq<Record>, job: string)
    ensures |WithJob(emps, job)| == multiset(JobsOf(emps))[job]
  {
    if emps != [] {
      var n := |emps| - 1;
      WithJobSize(emps[..n], job);
      JobsOfSnoc(emps, n);
      assert emps[..n + 1] == emps;
    }
  }

  /** A position not among those seen so far has no employees yet. */
  lemma UnseenJobEmpty(es: seq<Record>, job: string)
    requires job !in Distinct(JobsOf(es))
    ensures WithJob(es, job) == []
  {
    WithJobSize(es, job);
    assert job !in JobsOf(es);
  }

  /** `multiset` counts summed over a list of keys. */
  function CountSum(keys: seq<string>, m: multiset<string>): nat {
    if keys == [] then 0 else CountSum(keys[..|keys| - 1], m) + m[keys[|keys| - 1]]
  }

  lemma {:induction false} CountSumAdd(keys: seq<string>, m: multiset<string>, x: string)
    requires NoDup(keys)
    ensures CountSum(keys, m + multiset{x}) == CountSum(keys, m) + (if x in keys then 1 else 0)
  {
    if keys != [] {
      var init := keys[..|keys| - 1];
      assert NoDup(init);
      CountSumAdd(init, m, x);
      assert keys == init + [keys[|keys| - 1]];
    }
  }

  /** Counting every distinct element once, by its multiplicity, counts every element. */
  lemma {:induction false} CountSumDistinct(s: seq<string>)
    ensures CountSum(Distinct(s), multiset(s)) == |s|
  {
    if s != [] {
      var p, x := s[..|s| - 1], s[|s| - 1];
      assert s == p + [x];
      var d := Distinct(p);
      CountSumDistinct(p);
      CountSumAdd(d, multiset(p), x);
      assert x in d <==> x in p;
      if x !in d {
        assert (d + [x])[..|d|] == d;
      }
    }
  }

  // ---- computeBarData ----

  /** One bar: a position and how many of its employees have each gender
      (the count of a gender is its multiplicity). */
  datatype BarRow = BarRow(job: string, genders: multiset<string>)

  /** The genders of the given employees, in order. */
  function GendersOf(es: seq<Record>): (r: seq<string>)
    ensures |r| == |es|
    ensures forall k :: 0 <= k < |es| ==> r[k] == GenderOf(es[k])
  {
    seq(|es|, k requires 0 <= k < |es| => GenderOf(es[k]))
  }

  /** The bar chart: one row per distinct position in order of first
      appearance, counting the genders of that position's employees. */
  function BarData(emps: seq<Record>): (rows: seq<BarRow>)
    ensures |rows| == |Distinct(JobsOf(emps))|
    ensures forall k :: 0 <= k < |rows| ==>
      rows[k] == BarRow(Distinct(JobsOf(emps))[k], multiset(GendersOf(WithJob(emps, Distinct(JobsOf(emps))[k]))))
  {
    var js := Distinct(JobsOf(emps));
    seq(|js|, k requires 0 <= k < |js| => BarRow(js[k], multiset(GendersOf(WithJob(emps, js[k])))))
  }

  /** The (position, gender) pair of every employee. */
  function Pairs(emps: seq<Record>): (r: seq<(string, string)>)
    ensures |r| == |emps|
    ensures forall i :: 0 <= i < |emps| ==> r[i] == (JobOf(emps[i]), GenderOf(emps[i]))
  {
    seq(|emps|, i requires 0 <= i < |emps| => (JobOf(emps[i]), GenderOf(emps[i])))
  }

  /** A bar's cell for gender `g` is the number of employees with that
      position and that gender. */
  lemma {:induction false} BarCellCounts(emps: seq<Record>, job: string, g: string)
    ensures multiset(GendersOf(WithJob(emps, job)))[g] == multiset(Pairs(emps))[(job, g)]
  {
    if emps != [] {
      var n := |emps| - 1;
      var w := WithJob(emps[..n], job);
      BarCellCounts(emps[..n], job, g);
      PairsSnoc(emps);
      if JobOf(emps[n]) == job {
        GendersSnoc(w, emps[n]);
      } else {
        assert WithJob(emps, job) == w;
      }
    }
  }

  lemma GendersSnoc(es: seq<Record>, e: Record)
    ensures GendersOf(es + [e]) == GendersOf(es) + [GenderOf(e)]
  {
  }

  lemma PairsSnoc(emps: seq<Record>)
    requires emps != []
    ensures Pairs(emps) == Pairs(emps[..|emps| - 1]) + [(JobOf(emps[|emps| - 1]), GenderOf(emps[|emps| - 1]))]
  {
  }

  /** The total of all bars. */
  function BarTotal(rows: seq<BarRow>): nat {
    if rows == [] then 0 else BarTotal(rows[..|rows| - 1]) + |rows[|rows| - 1].genders|
  }

  /** Bars whose sizes are the multiplicities of their keys add up to the
      keys' summed multiplicities. */
  lemma {:induction false} BarTotalOfSizes(rows: seq<BarRow>, keys: seq<string>, m: multiset<string>)
    requires |rows| == |keys|
    requires forall k :: 0 <= k < |rows| ==> |rows[k].genders| == m[keys[k]]
    ensures BarTotal(rows) == CountSum(keys, m)
  {
    if rows != [] {
      var n := |rows| - 1;
      BarTotalOfSizes(rows[..n], keys[..n], m);
    }
  }

  /** Every employee is counted in exactly one bar cell: the bars add up to
      the number of employees. */
  lemma BarDataCountsEveryone(emps: seq<Record>)
    ensures BarTotal(BarData(emps)) == |emps|
  {
    var rows, js := BarData(emps), Distinct(JobsOf(emps));
    forall k | 0 <= k < |rows|
      ensures |rows[k].genders| == multiset(JobsOf(emps))[js[k]]
    {
      WithJobSize(emps, js[k]);
    }
    BarTotalOfSizes(rows, js, multiset(JobsOf(emps)));
    CountSumDistinct(JobsOf(emps));
  }

  /** The finished bar of position `job` over the given employees. */
  function BarOf(es: seq<Record>, job: string): BarRow {
    BarRow(job, multiset(GendersOf(WithJob(es, job))))
  }

  /** `jobGenderCounts[job][gender] += 1`, the row starting as `{ job }`
      (no genders) the first time. */
  function Counted(acc: map<string, BarRow>, job: string, gender: string): map<string, BarRow> {
    var row := if job in acc then acc[job] else BarRow(job, multiset{});
    acc[job := BarRow(row.job, row.genders + multiset{gender})]
  }

  /** The state of `computeBarData` after the first `i` employees: the
      positions seen so far in order, and each one's row so far. */
  ghost predicate BarState(emps: seq<Record>, i: nat, order: seq<string>, acc: map<string, BarRow>)
    requires i <= |emps|
  {
    Seen(emps, i, order, acc) && BarsSoFar(emps, i, acc)
  }

  ghost predicate BarsSoFar(emps: seq<Record>, i: nat, acc: map<string, BarRow>)
    requires i <= |emps|
  {
    forall j :: j in acc ==> acc[j] == BarOf(emps[..i], j)
  }

  /** One more employee adds its gender to its own position's row only. */
  lemma BarOfStep(emps: seq<Record>, i: nat, j: string)
    requires i < |emps|
    ensures BarOf(emps[..i + 1], j) ==
      if JobOf(emps[i]) == j then BarRow(j, BarOf(emps[..i], j).genders + multiset{GenderOf(emps[i])})
      else BarOf(emps[..i], j)
  {
    WithJobStep(emps, i, j);
    var w := WithJob(emps[..i], j);
    if JobOf(emps[i]) == j {
      GendersSnoc(w, emps[i]);
    } else {
      assert w + [] == w;
    }
  }

  /** The bar step for one key: a new position's group was empty. */
  lemma BarKey(emps: seq<Record>, i: nat, acc: map<string, BarRow>, j: string)
    requires i < |emps| && BarsSoFar(emps, i, acc)
    requires JobOf(emps[i]) !in acc ==> WithJob(emps[..i], JobOf(emps[i])) == []
    requires j in Counted(acc, JobOf(emps[i]), GenderOf(emps[i]))
    ensures Counted(acc, JobOf(emps[i]), GenderOf(emps[i]))[j] == BarOf(emps[..i + 1], j)
  {
    BarOfStep(emps, i, j);
    if j == JobOf(emps[i]) && j !in acc {
      assert BarOf(emps[..i], j) == BarRow(j, multiset{});
    }
  }

  /** One loop step of `computeBarData` keeps its state. */
  lemma BarStep(emps: seq<Record>, i: nat, order: seq<string>, acc: map<string, BarRow>)
    requires i < |emps| && BarState(emps, i, order, acc)
    ensures var job := JobOf(emps[i]);
      BarState(emps, i + 1, NextOrder(order, acc, job), Counted(acc, job, GenderOf(emps[i])))
  {
    var job := JobOf(emps[i]);
    var acc' := Counted(acc, job, GenderOf(emps[i]));
    OrderStep(emps, i, order, acc, NextOrder(order, acc, job), acc');
    if job !in acc {
      UnseenJobEmpty(emps[..i], job);
    }
    forall j | j in acc'
      ensures acc'[j] == BarOf(emps[..i + 1], j)
    {
      BarKey(emps, i, acc, j);
    }
  }

  /** `computeBarData`: one pass over the employees, creating a position's
      row the first time it is seen and bumping the gender's count. */
  method ComputeBarData(emps: seq<Record>) returns (rows: seq<BarRow>)
    ensures rows == BarData(emps)
  {
    var order: seq<string> := [];
    var acc: map<string, BarRow> := map[];
    var i := 0;
    while i < |emps|
      invariant 0 <= i <= |emps|
      invariant BarState(emps, i, order, acc)
    {
      var job := JobOf(emps[i]);
      BarStep(emps, i, order, acc);
      order, acc := NextOrder(order, acc, job), Counted(acc, job, GenderOf(emps[i]));
      i := i + 1;
    }
    BarRows(emps, order, acc);
    rows := ValuesInOrder(order, acc);
  }

  /** After the last employee the rows read off in order are the bar data. */
  lemma BarRows(emps: seq<Record>, order: seq<string>, acc: map<string, BarRow>)
    requires BarState(emps, |emps|, order, acc)
    ensures forall j :: j in order ==> j in acc
    ensures ValuesInOrder(order, acc) == BarData(emps)
  {
    assert emps[..|emps|] == emps;
  }

  // ---- computeSkillsPercentageByJob: the per-position tallies ----

  /** A position's running tally: the summed match percentages and the number of employees. */
  datatype JobTally = JobTally(job: string, total: int, count: nat)

  /** `emp.skillsPercentage || 0` summed over the given employees. */
  function SumPercent(es: seq<Record>): int {
    if es == [] then 0 else SumPercent(es[..|es| - 1]) + NumOr(es[|es| - 1], PercentKey)
  }

  /** The finished tally of position `job` over the given employees. */
  function TallyOf(es: seq<Record>, job: string): JobTally {
    JobTally(job, SumPercent(WithJob(es, job)), |WithJob(es, job)|)
  }

  /** The tallies: one per distinct position in order of first appearance. */
  function JobTallies(emps: seq<Record>): (rows: seq<JobTally>)
    ensures |rows| == |Distinct(JobsOf(emps))|
  {
    var js := Distinct(JobsOf(emps));
    seq(|js|, k requires 0 <= k < |js| => TallyOf(emps, js[k]))
  }

  /** Every emitted tally counts exactly that position's employees, so at
      least one; the counts add up to the number of employees; and each count
      is the total of the same position's bar. */
  lemma JobTalliesCounts(emps: seq<Record>)
    ensures forall k :: 0 <= k < |JobTallies(emps)| ==>
      JobTallies(emps)[k].count == multiset(JobsOf(emps))[JobTallies(emps)[k].job] >= 1
    ensures forall k :: 0 <= k < |JobTallies(emps)| ==>
      JobTallies(emps)[k].job == BarData(emps)[k].job
      && JobTallies(emps)[k].count == |BarData(emps)[k].genders|
  {
    var js := Distinct(JobsOf(emps));
    forall k | 0 <= k < |js|
      ensures |WithJob(emps, js[k])| == multiset(JobsOf(emps))[js[k]] >= 1
    {
      WithJobSize(emps, js[k]);
      assert js[k] in JobsOf(emps);
    }
  }

  /** `jobSkills[job].total += perc; jobSkills[job].count += 1`, the tally
      starting from `{ job, total: 0, count: 0 }` the first time. */
  function Added(acc: map<string, JobTally>, job: string, perc: int): map<string, JobTally> {
    var t := if job in acc then acc[job] else JobTally(job, 0, 0);
    acc[job := JobTally(t.job, t.total + perc, t.count + 1)]
  }

  /** The state of `computeSkillsPercentageByJob` after the first `i`
      employees: the positions seen, and each one's tally so far. */
  ghost predicate TallyState(emps: seq<Record>, i: nat, order: seq<string>, acc: map<string, JobTally>)
    requires i <= |emps|
  {
    Seen(emps, i, order, acc) && Tallied(emps, i, acc)
  }

  ghost predicate Tallied(emps: seq<Record>, i: nat, acc: map<string, JobTally>)
    requires i <= |emps|
  {
    forall j :: j in acc ==> acc[j] == TallyOf(emps[..i], j)
  }

  /** One more employee joins its own position's group only. */
  lemma GroupGrowsByOne(emps: seq<Record>, i: nat, j: string)
    requires i < |emps|
    ensures |WithJob(emps[..i + 1], j)| == |WithJob(emps[..i], j)| + (if JobOf(emps[i]) == j then 1 else 0)
    ensures SumPercent(WithJob(emps[..i + 1], j)) ==
      SumPercent(WithJob(emps[..i], j)) + (if JobOf(emps[i]) == j then NumOr(emps[i], PercentKey) else 0)
  {
    WithJobStep(emps, i, j);
    var w := WithJob(emps[..i], j);
    if JobOf(emps[i]) == j {
      assert (w + [emps[i]])[..|w|] == w;
    } else {
      assert w + [] == w;
    }
  }

  /** One more employee adds to its own position's tally only. */
  lemma TallyOfStep(emps: seq<Record>, i: nat, j: string)
    requires i < |emps|
    ensures var t := TallyOf(emps[..i], j);
      TallyOf(emps[..i + 1], j) ==
        if JobOf(emps[i]) == j then JobTally(j, t.total + NumOr(emps[i], PercentKey), t.count + 1) else t
  {
    GroupGrowsByOne(emps, i, j);
  }

  lemma TalliedStep(emps: seq<Record>, i: nat, order: seq<string>, acc: map<string, JobTally>)
    requires i < |emps| && TallyState(emps, i, order, acc)
    ensures Tallied(emps, i + 1, Added(acc, JobOf(emps[i]), NumOr(emps[i], PercentKey)))
  {
    if JobOf(emps[i]) !in acc {
      UnseenJobEmpty(emps[..i], JobOf(emps[i]));
    }
    forall j | j in Added(acc, JobOf(emps[i]), NumOr(emps[i], PercentKey))
      ensures Added(acc, JobOf(emps[i]), NumOr(emps[i], PercentKey))[j] == TallyOf(emps[..i + 1], j)
    {
      TalliedKey(emps, i, acc, j);
    }
  }

  /** The tally step for one key: a new position's group was empty. */
  lemma TalliedKey(emps: seq<Record>, i: nat, acc: map<string, JobTally>, j: string)
    requires i < |emps| && Tallied(emps, i, acc)
    requires JobOf(emps[i]) !in acc ==> WithJob(emps[..i], JobOf(emps[i])) == []
    requires j in Added(acc, JobOf(emps[i]), NumOr(emps[i], PercentKey))
    ensures Added(acc, JobOf(emps[i]), NumOr(emps[i], PercentKey))[j] == TallyOf(emps[..i + 1], j)
  {
    TallyOfStep(emps, i, j);
    if j == JobOf(emps[i]) && j !in acc {
      assert TallyOf(emps[..i], j) == JobTally(j, 0, 0);
    }
  }

  /** One loop step of `computeSkillsPercentageByJob` keeps its state. */
  lemma TallyStep(emps: seq<Record>, i: nat, order: seq<string>, acc: map<string, JobTally>)
    requires i < |emps| && TallyState(emps, i, order, acc)
    ensures var job := JobOf(emps[i]);
      TallyState(emps, i + 1, NextOrder(order, acc, job), Added(acc, job, NumOr(emps[i], PercentKey)))
  {
    var job := JobOf(emps[i]);
    OrderStep(emps, i, order, acc, NextOrder(order, acc, job), Added(acc, job, NumOr(emps[i], PercentKey)));
    TalliedStep(emps, i, order, acc);
  }

  /** The loop of `computeSkillsPercentageByJob`, without the final average. */
  method ComputeJobTallies(emps: seq<Record>) returns (rows: seq<JobTally>)
    ensures rows == JobTallies(emps)
  {
    var order: seq<string> := [];
    var acc: map<string, JobTally> := map[];
    var i := 0;
    while i < |emps|
      invariant 0 <= i <= |emps|
      invariant TallyState(emps, i, order, acc)
    {
      var job := JobOf(emps[i]);
      TallyStep(emps, i, order, acc);
      order, acc := NextOrder(order, acc, job), Added(acc, job, NumOr(emps[i], PercentKey));
      i := i + 1;
    }
    TallyRows(emps, order, acc);
    rows := ValuesInOrder(order, acc);
  }

  /** After the last employee the tallies read off in order are `JobTallies`. */
  lemma TallyRows(emps: seq<Record>, order: seq<string>, acc: map<string, JobTally>)
    requires TallyState(emps, |emps|, order, acc)
    ensures forall j :: j in order ==> j in acc
    ensures ValuesInOrder(order, acc) == JobTallies(emps)
  {
    assert emps[..|emps|] == emps;
  }

  // ---- computeSkillMatchPerEmployee ----

  /** One employee's entry while grouping. */
  datatype Member = Member(name: string, skillsPercentage: int, job: string)

  /** One bar of the per-employee chart. */
  datatype MatchRow = MatchRow(name: string, skillsPercentage: int, job: string, groupLabel: string)

  function MemberOf(e: Record): Member {
    Member(TextOr(e, "name", "Unnamed"), NumOr(e, PercentKey), JobOf(e))
  }

  function Members(es: seq<Record>): (r: seq<Member>)
    ensures |r| == |es|
    ensures forall k :: 0 <= k < |es| ==> r[k] == MemberOf(es[k])
  {
    seq(|es|, k requires 0 <= k < |es| => MemberOf(es[k]))
  }

  /** `` `${job} (${emps.length})` `` */
  function GroupLabel(job: string, size: nat): string {
    job + " (" + NatToString(size) + ")"
  }

  /** A group's members, each labelled with the group's position and size. */
  function Labelled(job: string, group: seq<Member>): (r: seq<MatchRow>)
    ensures |r| == |group|
    ensures forall k :: 0 <= k < |group| ==>
      r[k] == MatchRow(group[k].name, group[k].skillsPercentage, group[k].job, GroupLabel(job, |group|))
  {
    seq(|group|, k requires 0 <= k < |group| =>
      MatchRow(group[k].name, group[k].skillsPercentage, group[k].job, GroupLabel(job, |group|)))
  }

  /** The groups of the listed positions, one after another. */
  function GroupsOver(emps: seq<Record>, jobs: seq<string>): seq<MatchRow> {
    if jobs == [] then []
    else
      var j := jobs[|jobs| - 1];
      GroupsOver(emps, jobs[..|jobs| - 1]) + Labelled(j, Members(WithJob(emps, j)))
  }

  /** The chart: position groups in order of first appearance, each holding
      that position's employees in their listed order. */
  function SkillMatch(emps: seq<Record>): seq<MatchRow> {
    GroupsOver(emps, Distinct(JobsOf(emps)))
  }

  lemma {:induction false} GroupsOverSize(emps: seq<Record>, jobs: seq<string>)
    ensures |GroupsOver(emps, jobs)| == CountSum(jobs, multiset(JobsOf(emps)))
  {
    if jobs != [] {
      GroupsOverSize(emps, jobs[..|jobs| - 1]);
      WithJobSize(emps, jobs[|jobs| - 1]);
    }
  }

  /** Exactly one row per employee. */
  lemma SkillMatchOneRowEach(emps: seq<Record>)
    ensures |SkillMatch(emps)| == |emps|
  {
    GroupsOverSize(emps, Distinct(JobsOf(emps)));
    CountSumDistinct(JobsOf(emps));
  }

  /** Listing one more position appends its group. */
  lemma GroupsOverSnoc(emps: seq<Record>, jobs: seq<string>, j: string)
    ensures GroupsOver(emps, jobs + [j]) == GroupsOver(emps, jobs) + Labelled(j, Members(WithJob(emps, j)))
  {
    var s := jobs + [j];
    assert s[..|s| - 1] == jobs && s[|s| - 1] == j;
  }

  /** The groups of two lists of positions, one after the other, are the
      groups of the joined list. */
  lemma {:induction false} GroupsOverConcat(emps: seq<Record>, a: seq<string>, b: seq<string>)
    ensures GroupsOver(emps, a + b) == GroupsOver(emps, a) + GroupsOver(emps, b)
    decreases |b|
  {
    if b == [] {
      assert a + b == a;
    } else {
      var init, last := b[..|b| - 1], b[|b| - 1];
      SplitLast(a, b);
      GroupsOverSnoc(emps, a + init, last);
      GroupsOverSnoc(emps, init, last);
      GroupsOverConcat(emps, a, init);
      AppendAssoc(GroupsOver(emps, a), GroupsOver(emps, init), Labelled(last, Members(WithJob(emps, last))));
    }
  }

  /** A non-empty `b` is its front and its last element; so is `a + b`. */
  lemma SplitLast<T>(a: seq<T>, b: seq<T>)
    requires b != []
    ensures b == b[..|b| - 1] + [b[|b| - 1]]
    ensures a + b == (a + b[..|b| - 1]) + [b[|b| - 1]]
  {
  }

  lemma AppendAssoc<T>(a: seq<T>, b: seq<T>, c: seq<T>)
    ensures (a + b) + c == a + (b + c)
  {
  }

  /** Cutting the list of positions at `k` cuts the rows at the `k`-th group. */
  lemma GroupsOverSplitAt(emps: seq<Record>, jobs: seq<string>, k: nat)
    requires k < |jobs|
    ensures GroupsOver(emps, jobs) == GroupsOver(emps, jobs[..k])
      + Labelled(jobs[k], Members(WithJob(emps, jobs[k]))) + GroupsOver(emps, jobs[k + 1..])
  {
    var upto, rest := jobs[..k + 1], jobs[k + 1..];
    assert upto[..|upto| - 1] == jobs[..k] && upto[|upto| - 1] == jobs[k];
    assert upto + rest == jobs;
    GroupsOverConcat(emps, upto, rest);
  }

  /** Each position's group is one contiguous block of the chart: the `k`-th
      position in order of first appearance owns the rows right after the
      groups of the positions before it, and they are exactly its employees
      in listed order, each carrying the label `"<job> (<group size>)"`. */
  lemma SkillMatchGroupBlock(emps: seq<Record>, k: nat)
    requires k < |Distinct(JobsOf(emps))|
    ensures var js := Distinct(JobsOf(emps));
      var g := Members(WithJob(emps, js[k]));
      var lo := |GroupsOver(emps, js[..k])|;
      lo + |g| <= |SkillMatch(emps)|
      && SkillMatch(emps)[lo..lo + |g|] == Labelled(js[k], g)
      && forall i :: lo <= i < lo + |g| ==>
           SkillMatch(emps)[i].job == js[k] && SkillMatch(emps)[i].groupLabel == GroupLabel(js[k], |g|)
  {
    var js := Distinct(JobsOf(emps));
    var g := Members(WithJob(emps, js[k]));
    var L := Labelled(js[k], g);
    var pre, post := GroupsOver(emps, js[..k]), GroupsOver(emps, js[k + 1..]);
    GroupsOverSplitAt(emps, js, k);
    assert SkillMatch(emps) == pre + L + post;
    SliceMiddle(pre, L, post);
    GroupRowsHaveJob(emps, js[k]);
  }

  /** The middle part of a three-part join is found right after the first part. */
  lemma SliceMiddle<T>(a: seq<T>, b: seq<T>, c: seq<T>)
    ensures |a| + |b| <= |a + b + c|
    ensures (a + b + c)[|a|..|a| + |b|] == b
    ensures forall i :: |a| <= i < |a| + |b| ==> (a + b + c)[i] == b[i - |a|]
  {
  }

  /** The rows of a chart whose position is `j`, in chart order. */
  function RowsOf(rows: seq<MatchRow>, j: string): seq<MatchRow> {
    if rows == [] then []
    else
      var last := rows[|rows| - 1];
      RowsOf(rows[..|rows| - 1], j) + (if last.job == j then [last] else [])
  }

  lemma {:induction false} RowsOfConcat(a: seq<MatchRow>, b: seq<MatchRow>, j: string)
    ensures RowsOf(a + b, j) == RowsOf(a, j) + RowsOf(b, j)
    decreases |b|
  {
    if b == [] {
      assert a + b == a;
    } else {
      var n := |b| - 1;
      assert (a + b)[..|a + b| - 1] == a + b[..n];
      RowsOfConcat(a, b[..n], j);
    }
  }

  /** Rows all of position `k` are kept whole when `k == j` and dropped otherwise. */
  lemma {:induction false} RowsOfUniform(rows: seq<MatchRow>, k: string, j: string)
    requires forall i :: 0 <= i < |rows| ==> rows[i].job == k
    ensures RowsOf(rows, j) == if k == j then rows else []
  {
    if rows != [] {
      var n := |rows| - 1;
      RowsOfUniform(rows[..n], k, j);
      if k == j {
        assert rows[..n] + [rows[n]] == rows;
      }
    }
  }

  /** Every row of a position's group carries that position. */
  lemma GroupRowsHaveJob(emps: seq<Record>, j: string)
    ensures forall i :: 0 <= i < |Labelled(j, Members(WithJob(emps, j)))| ==>
      Labelled(j, Members(WithJob(emps, j)))[i].job == j
  {
  }

  /** Over a duplicate-free list of positions, the rows of position `j` are
      its group when it is listed and none otherwise. */
  lemma {:induction false} GroupsOverRowsOf(emps: seq<Record>, jobs: seq<string>, j: string)
    requires NoDup(jobs)
    ensures RowsOf(GroupsOver(emps, jobs), j) ==
      if j in jobs then Labelled(j, Members(WithJob(emps, j))) else []
  {
    if jobs != [] {
      var init, last := jobs[..|jobs| - 1], jobs[|jobs| - 1];
      assert NoDup(init);
      assert jobs == init + [last];
      GroupsOverRowsOf(emps, init, j);
      var g := Labelled(last, Members(WithJob(emps, last)));
      RowsOfConcat(GroupsOver(emps, init), g, j);
      GroupRowsHaveJob(emps, last);
      RowsOfUniform(g, last, j);
      if j == last {
        assert j !in init;
      }
    }
  }

  /** What the chart holds for each position `j`: exactly the employees
      holding `j`, in their listed order, each with its name (`Unnamed` when
      missing), its match percentage (0 when missing) and the label
      `"<j> (<group size>)"`. */
  lemma SkillMatchRowsOfJob(emps: seq<Record>, j: string)
    ensures var w := WithJob(emps, j);
      var rows := RowsOf(SkillMatch(emps), j);
      |rows| == |w|
      && forall k :: 0 <= k < |w| ==>
        rows[k] == MatchRow(TextOr(w[k], "name", "Unnamed"), NumOr(w[k], PercentKey), j, GroupLabel(j, |w|))
  {
    var js := Distinct(JobsOf(emps));
    GroupsOverRowsOf(emps, js, j);
    if j !in js {
      UnseenJobEmpty(emps, j);
    }
  }

  /** The groups of `computeSkillMatchPerEmployee` after the first `i` employees. */
  ghost predicate GroupState(emps: seq<Record>, i: nat, order: seq<string>, groups: map<string, seq<Member>>)
    requires i <= |emps|
  {
    Seen(emps, i, order, groups) && Grouped(emps, i, groups)
  }

  /** Each position's entry holds that position's employees so far, as members. */
  ghost predicate Grouped(emps: seq<Record>, i: nat, groups: map<string, seq<Member>>)
    requires i <= |emps|
  {
    forall j :: j in groups ==> groups[j] == Members(WithJob(emps[..i], j))
  }

  /** One more employee is appended to its own position's members only. */
  lemma MembersStep(emps: seq<Record>, i: nat, j: string)
    requires i < |emps|
    ensures Members(WithJob(emps[..i + 1], j)) ==
      Members(WithJob(emps[..i], j)) + (if JobOf(emps[i]) == j then [MemberOf(emps[i])] else [])
  {
    WithJobStep(emps, i, j);
    var w := WithJob(emps[..i], j);
    if JobOf(emps[i]) != j {
      assert w + [] == w;
    }
  }

  /** `jobGroups[job].push(member)`, the group starting as `[]` the first time. */
  function Pushed(groups: map<string, seq<Member>>, job: string, m: Member): map<string, seq<Member>> {
    groups[job := (if job in groups then groups[job] else []) + [m]]
  }

  /** The grouping step for one key: a new position's group was empty. */
  lemma GroupedKey(emps: seq<Record>, i: nat, groups: map<string, seq<Member>>, j: string)
    requires i < |emps| && Grouped(emps, i, groups)
    requires JobOf(emps[i]) !in groups ==> WithJob(emps[..i], JobOf(emps[i])) == []
    requires j in Pushed(groups, JobOf(emps[i]), MemberOf(emps[i]))
    ensures Pushed(groups, JobOf(emps[i]), MemberOf(emps[i]))[j] == Members(WithJob(emps[..i + 1], j))
  {
    MembersStep(emps, i, j);
  }

  lemma GroupStep(emps: seq<Record>, i: nat, order: seq<string>, groups: map<string, seq<Member>>)
    requires i < |emps| && GroupState(emps, i, order, groups)
    ensures var job := JobOf(emps[i]);
      GroupState(emps, i + 1, NextOrder(order, groups, job), Pushed(groups, job, MemberOf(emps[i])))
  {
    var job := JobOf(emps[i]);
    var groups' := Pushed(groups, job, MemberOf(emps[i]));
    OrderStep(emps, i, order, groups, NextOrder(order, groups, job), groups');
    if job !in groups {
      UnseenJobEmpty(emps[..i], job);
    }
    forall j | j in groups'
      ensures groups'[j] == Members(WithJob(emps[..i + 1], j))
    {
      GroupedKey(emps, i, groups, j);
    }
  }

  /** `computeSkillMatchPerEmployee`: group the members by position in one
      pass, then flatten the groups in order, labelling each member. */
  method ComputeSkillMatch(emps: seq<Record>) returns (out: seq<MatchRow>)
    ensures out == SkillMatch(emps)
  {
    var order: seq<string> := [];
    var groups: map<string, seq<Member>> := map[];
    var i := 0;
    while i < |emps|
      invariant 0 <= i <= |emps|
      invariant GroupState(emps, i, order, groups)
    {
      var job := JobOf(emps[i]);
      GroupStep(emps, i, order, groups);
      order, groups := NextOrder(order, groups, job), Pushed(groups, job, MemberOf(emps[i]));
      i := i + 1;
    }
    SkillMatchRows(emps, order, groups);
    out := FlatMapGroups(order, groups);
  }

  /** `Object.entries(jobGroups).flatMap(...)`: each group's members,
      labelled, one group after another in key order. */
  function FlatMapGroups(order: seq<string>, groups: map<string, seq<Member>>): seq<MatchRow>
    requires forall j :: j in order ==> j in groups
  {
    if order == [] then []
    else
      var j := order[|order| - 1];
      FlatMapGroups(order[..|order| - 1], groups) + Labelled(j, groups[j])
  }

  /** Flattening groups that hold each position's employees gives the chart. */
  lemma {:induction false} FlatMapGroupsOver(emps: seq<Record>, order: seq<string>, groups: map<string, seq<Member>>)
    requires Grouped(emps, |emps|, groups)
    requires forall j :: j in order ==> j in groups
    ensures FlatMapGroups(order, groups) == GroupsOver(emps, order)
  {
    if order != [] {
      FlatMapGroupsOver(emps, order[..|order| - 1], groups);
      assert emps[..|emps|] == emps;
    }
  }

  /** After the last employee the flattened groups are the chart. */
  lemma SkillMatchRows(emps: seq<Record>, order: seq<string>, groups: map<string, seq<Member>>)
    requires GroupState(emps, |emps|, order, groups)
    ensures forall j :: j in order ==> j in groups
    ensures FlatMapGroups(order, groups) == SkillMatch(emps)
  {
    FlatMapGroupsOver(emps, order, groups);
    assert emps[..|emps|] == emps;
  }

  // ---- the vacancy card ----

  /** `jobs.reduce((acc, job) => acc + (job.vacancies || 0), 0)` */
  function TotalVacancies(jobs: seq<Record>): int {
    if jobs == [] then 0 else NumOr(jobs[0], "vacancies") + TotalVacancies(jobs[1..])
  }

  lemma {:induction false} TotalVacanciesAppend(a: seq<Record>, b: seq<Record>)
    ensures TotalVacancies(a + b) == TotalVacancies(a) + TotalVacancies(b)
  {
    if a == [] {
      assert a + b == b;
    } else {
      assert (a + b)[1..] == a[1..] + b;
      TotalVacanciesAppend(a[1..], b);
    }
  }

  /** Taking out the job at `k` takes out its vacancies. */
  lemma {:induction false} TotalVacanciesRemove(b: seq<Record>, k: nat)
    requires k < |b|
    ensures TotalVacancies(b) == NumOr(b[k], "vacancies") + TotalVacancies(b[..k] + b[k + 1..])
  {
    var pre, mid, post := b[..k], [b[k]], b[k + 1..];
    assert b == (pre + mid) + post;
    assert TotalVacancies(mid) == NumOr(b[k], "vacancies") by {
      assert mid[1..] == [];
    }
    TotalVacanciesAppend(pre + mid, post);
    TotalVacanciesAppend(pre, mid);
    TotalVacanciesAppend(pre, post);
  }

  lemma MultisetRemove<T>(b: seq<T>, k: nat)
    requires k < |b|
    ensures multiset(b[..k] + b[k + 1..]) == multiset(b) - multiset{b[k]}
  {
    assert b == b[..k] + [b[k]] + b[k + 1..];
  }

  /** Matching the head of `a` with `b[k]` leaves permutations of each other. */
  lemma PermutationTail<T>(a: seq<T>, b: seq<T>, k: nat)
    requires multiset(a) == multiset(b) && a != [] && k < |b| && b[k] == a[0]
    ensures multiset(a[1..]) == multiset(b[..k] + b[k + 1..])
  {
    MultisetRemove(b, k);
    assert a == [a[0]] + a[1..];
    assert multiset(a[1..]) == multiset(a) - multiset{a[0]};
  }

  /** The total does not depend on the order in which the jobs are listed. */
  lemma {:induction false} TotalVacanciesPermutation(a: seq<Record>, b: seq<Record>)
    requires multiset(a) == multiset(b)
    ensures TotalVacancies(a) == TotalVacancies(b)
    decreases |a|
  {
    if a != [] {
      var x := a[0];
      assert x in multiset(b);
      var k :| 0 <= k < |b| && b[k] == x;
      var rest := b[..k] + b[k + 1..];
      PermutationTail(a, b, k);
      TotalVacanciesPermutation(a[1..], rest);
      TotalVacanciesRemove(b, k);
    }
  }
}
