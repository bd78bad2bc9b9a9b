/** The student's attendance page: per-subject and overall statistics over the
    records the backend returns, the colour band of a percentage, and the
    page's own state (the record snapshot and its loading flag). */
module StudentAttendance {
  import opened Entities
  import opened Rounding

  /** The filters the page counts records by. */
  datatype Criterion = AnyPresent | OfSubject(name: string) | PresentOfSubject(name: string)

  predicate Holds(c: Criterion, r: AttendanceRecord)
  {
    match c
    case AnyPresent => r.status == Present
    case OfSubject(n) => r.subject.name == n
    case PresentOfSubject(n) => r.subject.name == n && r.status == Present
  }

  /** `records.filter(c).length`. */
  function Count(rs: seq<AttendanceRecord>, c: Criterion): (n: nat)
    ensures n <= |rs|
    decreases |rs|
  {
    if rs == [] then 0
    else Count(rs[..|rs| - 1], c) + (if Holds(c, rs[|rs| - 1]) then 1 else 0)
  }

  lemma {:induction false} CountAppend(a: seq<AttendanceRecord>, b: seq<AttendanceRecord>, c: Criterion)
    ensures Count(a + b, c) == Count(a, c) + Count(b, c)
    decreases |b|
  {
    if b == [] {
      assert a + b == a;
    } else {
      var b' := b[..|b| - 1];
      assert (a + b)[..|a + b| - 1] == a + b';
      CountAppend(a, b', c);
    }
  }

  /** Counting does not depend on the order of the records. */
  lemma {:induction false} CountPermutation(a: seq<AttendanceRecord>, b: seq<AttendanceRecord>, c: Criterion)
    requires multiset(a) == multiset(b)
    ensures Count(a, c) == Count(b, c)
    decreases |a|
  {
    if a == [] {
      assert |b| == |multiset(b)| == 0;
    } else {
      var x, a' := a[|a| - 1], a[..|a| - 1];
      assert a == a' + [x];
      assert x in multiset(b) by { assert x in multiset(a); }
      var k :| 0 <= k < |b| && b[k] == x;
      var b' := b[..k] + b[k + 1..];
      assert b == b[..k] + [x] + b[k + 1..];
      assert multiset(b') == multiset(b) - multiset{x};
      assert multiset(a') == multiset(a) - multiset{x};
      CountPermutation(a', b', c);
      CountAppend(a', [x], c);
      CountAppend(b[..k], [x], c);
      CountAppend(b[..k] + [x], b[k + 1..], c);
      CountAppend(b[..k], b[k + 1..], c);
    }
  }

  /** Turning one PRESENT record into ABSENT lowers the present count by
      exactly one and leaves the number of records unchanged. */
  lemma {:induction false} MarkAbsentLowersPresent(rs: seq<AttendanceRecord>, i: nat)
    requires i < |rs| && rs[i].status == Present
    ensures |rs[i := rs[i].(status := Absent)]| == |rs|
    ensures Count(rs[i := rs[i].(status := Absent)], AnyPresent) == Count(rs, AnyPresent) - 1
  {
    var rs' := rs[i := rs[i].(status := Absent)];
    assert rs == rs[..i] + [rs[i]] + rs[i + 1..];
    assert rs' == rs[..i] + [rs'[i]] + rs[i + 1..];
    CountAppend(rs[..i] + [rs[i]], rs[i + 1..], AnyPresent);
    CountAppend(rs[..i], [rs[i]], AnyPresent);
    CountAppend(rs[..i] + [rs'[i]], rs[i + 1..], AnyPresent);
    CountAppend(rs[..i], [rs'[i]], AnyPresent);
    assert Count([rs[i]], AnyPresent) == 1 by { assert [rs[i]][..0] == []; }
    assert Count([rs'[i]], AnyPresent) == 0 by { assert [rs'[i]][..0] == []; }
  }

  /** Index of the first record whose subject is called n, or |rs| if none. */
  function FirstIndex(rs: seq<AttendanceRecord>, n: string): (k: nat)
    ensures k <= |rs|
    ensures k < |rs| ==> rs[k].subject.name == n
    ensures forall i :: 0 <= i < k ==> rs[i].subject.name != n
  {
    if rs == [] then 0
    else if rs[0].subject.name == n then 0
    else 1 + FirstIndex(rs[1..], n)
  }

  lemma FirstIndexSnoc(rs: seq<AttendanceRecord>, r: AttendanceRecord, n: string)
    ensures FirstIndex(rs + [r], n) ==
      if FirstIndex(rs, n) < |rs| then FirstIndex(rs, n)
      else if r.subject.name == n then |rs| else |rs| + 1
  {
    var k, k' := FirstIndex(rs, n), FirstIndex(rs + [r], n);
    assert forall i :: 0 <= i < |rs| ==> (rs + [r])[i] == rs[i];
    if k < |rs| {
      assert (rs + [r])[k].subject.name == n;
    } else if r.subject.name == n {
      assert (rs + [r])[|rs|] == r;
    }
  }

  // --- Per-subject grouping, the `Map` filled by `getSubjectStats` ---

  /** The counters kept per subject name: `{ total, present, code }`. */
  datatype Tally = Tally(total: nat, present: nat, code: string)

  datatype Group = Group(name: string, tally: Tally)

  /** One row of the page's subject cards. */
  datatype SubjectStat = SubjectStat(name: string, code: string, percentage: int, present: nat, total: nat)

  /** `stats.total++` and, for a PRESENT record, `stats.present++`. */
  function Tallied(t: Tally, r: AttendanceRecord): Tally
  {
    Tally(t.total + 1, if r.status == Present then t.present + 1 else t.present, t.code)
  }

  /** Position of the group called n, or |gs| if there is none. */
  function IndexOfName(gs: seq<Group>, n: string): (k: nat)
    ensures k <= |gs|
    ensures k < |gs| ==> gs[k].name == n
    ensures forall i :: 0 <= i < k ==> gs[i].name != n
  {
    if gs == [] then 0
    else if gs[0].name == n then 0
    else 1 + IndexOfName(gs[1..], n)
  }

  /** One step of the `forEach`: a record with a new subject name opens a group
      at the end with that record's code; otherwise its group is counted up. */
  function AddRecord(gs: seq<Group>, r: AttendanceRecord): seq<Group>
  {
    var n := r.subject.name;
    var k := IndexOfName(gs, n);
    if k < |gs| then gs[k := Group(n, Tallied(gs[k].tally, r))]
    else gs + [Group(n, Tallied(Tally(0, 0, r.subject.code), r))]
  }

  /** The contents of the subject map, in the map's insertion order, after all
      of rs has been visited. */
  function Grouped(rs: seq<AttendanceRecord>): seq<Group>
    decreases |rs|
  {
    if rs == [] then [] else AddRecord(Grouped(rs[..|rs| - 1]), rs[|rs| - 1])
  }

  function NamesOf(gs: seq<Group>): (ns: seq<string>)
    ensures |ns| == |gs| && forall j :: 0 <= j < |gs| ==> ns[j] == gs[j].name
  {
    seq(|gs|, j requires 0 <= j < |gs| => gs[j].name)
  }

  ghost predicate Distinct(ns: seq<string>)
  {
    forall i, j :: 0 <= i < j < |ns| ==> ns[i] != ns[j]
  }

  lemma IndexOfNameIff(gs: seq<Group>, n: string)
    ensures IndexOfName(gs, n) < |gs| <==> n in NamesOf(gs)
  {
    if n in NamesOf(gs) {
      var j :| 0 <= j < |gs| && NamesOf(gs)[j] == n;
      assert gs[j].name == n;
    }
  }

  /** The group the step updates or opens, and that the others stay put. */
  lemma AddRecordAt(gs: seq<Group>, r: AttendanceRecord)
    ensures var n, k, g := r.subject.name, IndexOfName(gs, r.subject.name), AddRecord(gs, r);
      && (n in NamesOf(gs) <==> k < |gs|)
      && |g| == (if k < |gs| then |gs| else |gs| + 1)
      && k < |g| && g[k].name == n
      && g[k].tally == (if k < |gs| then Tallied(gs[k].tally, r) else Tallied(Tally(0, 0, r.subject.code), r))
      && (forall j :: 0 <= j < |gs| && j != k ==> g[j] == gs[j])
      && NamesOf(g) == (if k < |gs| then NamesOf(gs) else NamesOf(gs) + [n])
  {
    IndexOfNameIff(gs, r.subject.name);
  }

  /** The distinct subject names of rs, in the order they first occur. */
  function SubjectNames(rs: seq<AttendanceRecord>): seq<string>
    decreases |rs|
  {
    if rs == [] then []
    else
      var prior, n := SubjectNames(rs[..|rs| - 1]), rs[|rs| - 1].subject.name;
      if n in prior then prior else prior + [n]
  }

  /** The groups are named by exactly those names, in that order. */
  lemma {:induction false} GroupedNames(rs: seq<AttendanceRecord>)
    ensures NamesOf(Grouped(rs)) == SubjectNames(rs)
    decreases |rs|
  {
    if rs != [] {
      GroupedNames(rs[..|rs| - 1]);
      AddRecordAt(Grouped(rs[..|rs| - 1]), rs[|rs| - 1]);
    }
  }

  /** No subject name has two groups. */
  lemma {:induction false} SubjectNamesDistinct(rs: seq<AttendanceRecord>)
    ensures Distinct(SubjectNames(rs))
    decreases |rs|
  {
    if rs != [] {
      SubjectNamesDistinct(rs[..|rs| - 1]);
    }
  }

  /** Every record's subject name has a group. */
  lemma {:induction false} SubjectNamesCover(rs: seq<AttendanceRecord>)
    ensures forall i :: 0 <= i < |rs| ==> rs[i].subject.name in SubjectNames(rs)
    decreases |rs|
  {
    if rs != [] {
      var p := rs[..|rs| - 1];
      SubjectNamesCover(p);
      forall i | 0 <= i < |rs|
        ensures rs[i].subject.name in SubjectNames(rs)
      {
        if i < |p| { assert rs[i] == p[i]; }
      }
    }
  }

  /** A name without a group is carried by no record. */
  lemma NotNamedNotFound(rs: seq<AttendanceRecord>, n: string)
    requires n !in SubjectNames(rs)
    ensures FirstIndex(rs, n) == |rs|
    ensures forall i :: 0 <= i < |rs| ==> rs[i].subject.name != n
  {
    SubjectNamesCover(rs);
  }

  /** Every group name is carried by some record, and the names come in the
      order in which they first occur in rs. */
  lemma {:induction false} SubjectNamesOrdered(rs: seq<AttendanceRecord>)
    ensures forall n :: n in SubjectNames(rs) ==> FirstIndex(rs, n) < |rs|
    ensures forall i, j :: 0 <= i < j < |SubjectNames(rs)| ==>
      FirstIndex(rs, SubjectNames(rs)[i]) < FirstIndex(rs, SubjectNames(rs)[j])
    decreases |rs|
  {
    if rs != [] {
      var p, r := rs[..|rs| - 1], rs[|rs| - 1];
      var n := r.subject.name;
      assert rs == p + [r];
      SubjectNamesOrdered(p);
      var np, ns := SubjectNames(p), SubjectNames(rs);
      forall m | m in np
        ensures FirstIndex(rs, m) == FirstIndex(p, m)
      {
        FirstIndexSnoc(p, r, m);
      }
      if n !in np {
        NotNamedNotFound(p, n);
        FirstIndexSnoc(p, r, n);
        assert ns == np + [n];
        assert forall i :: 0 <= i < |np| ==> ns[i] == np[i] && ns[i] in np;
      }
    }
  }

  /** Each group's code is the code of the first record carrying its name. */
  lemma {:induction false} GroupedCodes(rs: seq<AttendanceRecord>)
    ensures forall j :: 0 <= j < |Grouped(rs)| ==>
      FirstIndex(rs, Grouped(rs)[j].name) < |rs| &&
      Grouped(rs)[j].tally.code == rs[FirstIndex(rs, Grouped(rs)[j].name)].subject.code
    decreases |rs|
  {
    if rs != [] {
      var p, r := rs[..|rs| - 1], rs[|rs| - 1];
      assert rs == p + [r];
      GroupedCodes(p);
      var g', g := Grouped(p), Grouped(rs);
      AddRecordAt(g', r);
      GroupedNames(p);
      var k := IndexOfName(g', r.subject.name);
      forall j | 0 <= j < |g|
        ensures FirstIndex(rs, g[j].name) < |rs| && g[j].tally.code == rs[FirstIndex(rs, g[j].name)].subject.code
      {
        FirstIndexSnoc(p, r, g[j].name);
        if j < |g'| {
          assert g[j].name == g'[j].name && g[j].tally.code == g'[j].tally.code;
          assert rs[FirstIndex(p, g'[j].name)] == p[FirstIndex(p, g'[j].name)];
        } else {
          assert j == k && k == |g'|;
          NotNamedNotFound(p, r.subject.name);
        }
      }
    }
  }

  /** Each group counts exactly the records carrying its name, and its present
      counter exactly those of them that are PRESENT. */
  lemma {:induction false} GroupedCounts(rs: seq<AttendanceRecord>)
    ensures forall j :: 0 <= j < |Grouped(rs)| ==>
      Grouped(rs)[j].tally.total == Count(rs, OfSubject(Grouped(rs)[j].name)) &&
      Grouped(rs)[j].tally.present == Count(rs, PresentOfSubject(Grouped(rs)[j].name))
    decreases |rs|
  {
    if rs != [] {
      var p, r := rs[..|rs| - 1], rs[|rs| - 1];
      GroupedCounts(p);
      SubjectNamesDistinct(p);
      var g', g := Grouped(p), Grouped(rs);
      AddRecordAt(g', r);
      GroupedNames(p);
      var n := r.subject.name;
      var k := IndexOfName(g', n);
      forall j | 0 <= j < |g|
        ensures g[j].tally.total == Count(rs, OfSubject(g[j].name))
        ensures g[j].tally.present == Count(rs, PresentOfSubject(g[j].name))
      {
        if j == k && k == |g'| {
          NotNamedNotFound(p, n);
          NoneCounted(p, n);
        } else if j != k {
          assert g[j] == g'[j];
          if k < |g'| {
            assert SubjectNames(p)[j] == g'[j].name && SubjectNames(p)[k] == n;
          } else {
            assert SubjectNames(p)[j] == g'[j].name;
          }
        }
      }
    }
  }

  /** Every group has counted at least one record, and no more PRESENT ones
      than records. */
  lemma {:induction false} GroupedBounds(rs: seq<AttendanceRecord>)
    ensures forall j :: 0 <= j < |Grouped(rs)| ==>
      1 <= Grouped(rs)[j].tally.total && Grouped(rs)[j].tally.present <= Grouped(rs)[j].tally.total
    decreases |rs|
  {
    if rs != [] {
      var p, r := rs[..|rs| - 1], rs[|rs| - 1];
      GroupedBounds(p);
      AddRecordAt(Grouped(p), r);
    }
  }

  /** A name no record carries is counted zero times. */
  lemma {:induction false} NoneCounted(rs: seq<AttendanceRecord>, n: string)
    requires forall i :: 0 <= i < |rs| ==> rs[i].subject.name != n
    ensures Count(rs, OfSubject(n)) == 0 && Count(rs, PresentOfSubject(n)) == 0
    decreases |rs|
  {
    if rs != [] {
      NoneCounted(rs[..|rs| - 1], n);
    }
  }

  function SumTotals(gs: seq<Group>): nat
  {
    if gs == [] then 0 else SumTotals(gs[..|gs| - 1]) + gs[|gs| - 1].tally.total
  }

  function SumPresents(gs: seq<Group>): nat
  {
    if gs == [] then 0 else SumPresents(gs[..|gs| - 1]) + gs[|gs| - 1].tally.present
  }

  lemma {:induction false} SumsUpdate(gs: seq<Group>, k: nat, g: Group)
    requires k < |gs|
    ensures SumTotals(gs[k := g]) == SumTotals(gs) - gs[k].tally.total + g.tally.total
    ensures SumPresents(gs[k := g]) == SumPresents(gs) - gs[k].tally.present + g.tally.present
    decreases |gs|
  {
    if k < |gs| - 1 {
      assert gs[k := g][..|gs| - 1] == gs[..|gs| - 1][k := g];
      SumsUpdate(gs[..|gs| - 1], k, g);
    } else {
      assert gs[k := g][..|gs| - 1] == gs[..|gs| - 1];
    }
  }

  /** The group totals add up to the number of records, and the group
      present-counts to the number of PRESENT records. */
  lemma {:induction false} GroupedSums(rs: seq<AttendanceRecord>)
    ensures SumTotals(Grouped(rs)) == |rs|
    ensures SumPresents(Grouped(rs)) == Count(rs, AnyPresent)
    decreases |rs|
  {
    if rs != [] {
      var p, r := rs[..|rs| - 1], rs[|rs| - 1];
      GroupedSums(p);
      var g' := Grouped(p);
      var n := r.subject.name;
      var k := IndexOfName(g', n);
      if k < |g'| {
        SumsUpdate(g', k, Group(n, Tallied(g'[k].tally, r)));
      } else {
        var g := g' + [Group(n, Tallied(Tally(0, 0, r.subject.code), r))];
        assert g[..|g| - 1] == g';
      }
    }
  }

  /** The map's entries turned into subject cards. */
  function StatsOf(gs: seq<Group>): (s: seq<SubjectStat>)
    requires forall j :: 0 <= j < |gs| ==> gs[j].tally.total > 0
    ensures |s| == |gs|
  {
    seq(|gs|, j requires 0 <= j < |gs| => CardOf(gs[j]))
  }

  function CardOf(g: Group): SubjectStat
    requires g.tally.total > 0
  {
    SubjectStat(g.name, g.tally.code, Percent(g.tally.present, g.tally.total), g.tally.present, g.tally.total)
  }

  /** What `getSubjectStats` returns for the records rs. */
  function SubjectStats(rs: seq<AttendanceRecord>): seq<SubjectStat>
  {
    GroupedBounds(rs);
    StatsOf(Grouped(rs))
  }

  /** The JavaScript `Map` of `getSubjectStats` holds, for the keys in their
      insertion order, exactly the groups gs. */
  ghost predicate Mirrors(keys: seq<string>, subjectMap: map<string, Tally>, gs: seq<Group>)
  {
    && |keys| == |gs|
    && (forall j :: 0 <= j < |keys| ==>
          keys[j] == gs[j].name && keys[j] in subjectMap && subjectMap[keys[j]] == gs[j].tally)
    && (forall key :: key in subjectMap ==> key in keys)
  }

  /** A record whose name is already a key counts up that key's entry. */
  lemma MirrorsHit(keys: seq<string>, subjectMap: map<string, Tally>, gs: seq<Group>, r: AttendanceRecord)
    requires Mirrors(keys, subjectMap, gs) && Distinct(NamesOf(gs))
    requires r.subject.name in subjectMap
    ensures Mirrors(keys, subjectMap[r.subject.name := Tallied(subjectMap[r.subject.name], r)], AddRecord(gs, r))
  {
    var key := r.subject.name;
    var j :| 0 <= j < |keys| && keys[j] == key;
    var k := IndexOfName(gs, key);
    assert gs[j].name == key;
    assert k == j;
    var g := AddRecord(gs, r);
    assert g == gs[j := Group(key, Tallied(gs[j].tally, r))];
    var m := subjectMap[key := Tallied(subjectMap[key], r)];
    forall i | 0 <= i < |keys|
      ensures keys[i] == g[i].name && keys[i] in m && m[keys[i]] == g[i].tally
    {
      if i != j {
        assert NamesOf(gs)[i] != NamesOf(gs)[j];
      }
    }
  }

  /** A record with a new name adds a key at the end, with that record's code. */
  lemma MirrorsMiss(keys: seq<string>, subjectMap: map<string, Tally>, gs: seq<Group>, r: AttendanceRecord)
    requires Mirrors(keys, subjectMap, gs)
    requires r.subject.name !in subjectMap
    ensures Mirrors(keys + [r.subject.name],
                    subjectMap[r.subject.name := Tallied(Tally(0, 0, r.subject.code), r)], AddRecord(gs, r))
  {
    var key := r.subject.name;
    var g := AddRecord(gs, r);
    assert g == gs + [Group(key, Tallied(Tally(0, 0, r.subject.code), r))];
  }

  /** One iteration of the `forEach`, in terms of the map before it. */
  lemma FillStep(records: seq<AttendanceRecord>, i: nat, keys: seq<string>, subjectMap: map<string, Tally>)
    requires i < |records| && Mirrors(keys, subjectMap, Grouped(records[..i]))
    ensures var r := records[i];
      var key := r.subject.name;
      var start := if key in subjectMap then subjectMap[key] else Tally(0, 0, r.subject.code);
      Mirrors(if key in subjectMap then keys else keys + [key], subjectMap[key := Tallied(start, r)],
              Grouped(records[..i + 1]))
  {
    var p, r := records[..i], records[i];
    assert records[..i + 1][..i] == p;
    assert Grouped(records[..i + 1]) == AddRecord(Grouped(p), r);
    if r.subject.name in subjectMap {
      SubjectNamesDistinct(p);
      GroupedNames(p);
      MirrorsHit(keys, subjectMap, Grouped(p), r);
    } else {
      MirrorsMiss(keys, subjectMap, Grouped(p), r);
    }
  }

  /** `getSubjectStats`: a JavaScript `Map` keyed by subject name (modelled as
      a map and the sequence of its keys in insertion order) is filled record
      by record, then its entries are turned into cards. */
  method GetSubjectStats(records: seq<AttendanceRecord>) returns (stats: seq<SubjectStat>)
    ensures stats == SubjectStats(records)
  {
    var keys, subjectMap := FillSubjectMap(records);
    GroupedBounds(records);
    stats := MapToCards(keys, subjectMap, Grouped(records));
  }

  /** The `forEach` of `getSubjectStats`. */
  method FillSubjectMap(records: seq<AttendanceRecord>) returns (keys: seq<string>, subjectMap: map<string, Tally>)
    ensures Mirrors(keys, subjectMap, Grouped(records))
  {
    keys, subjectMap := [], map[];
    for i := 0 to |records|
      invariant Mirrors(keys, subjectMap, Grouped(records[..i]))
    {
      FillStep(records, i, keys, subjectMap);
      keys, subjectMap := CountRecord(keys, subjectMap, records[i]);
    }
    assert records[..|records|] == records;
  }

  /** The callback of the `forEach`: a new name is added to the map with a
      zero entry carrying the record's code, then the entry is counted up. */
  method CountRecord(keys: seq<string>, subjectMap: map<string, Tally>, record: AttendanceRecord)
    returns (keys': seq<string>, subjectMap': map<string, Tally>)
    ensures var key := record.subject.name;
      && keys' == (if key in subjectMap then keys else keys + [key])
      && subjectMap' == subjectMap[key := Tallied(if key in subjectMap then subjectMap[key]
                                                  else Tally(0, 0, record.subject.code), record)]
  {
    keys', subjectMap' := keys, subjectMap;
    var key := record.subject.name;
    if key !in subjectMap' {
      subjectMap' := subjectMap'[key := Tally(0, 0, record.subject.code)];
      keys' := keys' + [key];
    }
    var tally := subjectMap'[key];
    tally := tally.(total := tally.total + 1);
    if record.status == Present {
      tally := tally.(present := tally.present + 1);
    }
    subjectMap' := subjectMap'[key := tally];
  }

  /** `Array.from(subjectMap.entries()).map(...)`: one card per entry, in
      insertion order. */
  method MapToCards(keys: seq<string>, subjectMap: map<string, Tally>, ghost gs: seq<Group>)
    returns (stats: seq<SubjectStat>)
    requires Mirrors(keys, subjectMap, gs)
    requires forall j :: 0 <= j < |gs| ==> gs[j].tally.total > 0
    ensures stats == StatsOf(gs)
  {
    stats := [];
    for j := 0 to |keys|
      invariant |stats| == j
      invariant forall m :: 0 <= m < j ==> stats[m] == CardOf(gs[m])
    {
      var tally := subjectMap[keys[j]];
      stats := stats + [SubjectStat(keys[j], tally.code, Percent(tally.present, tally.total),
                                    tally.present, tally.total)];
    }
  }

  function CardNames(s: seq<SubjectStat>): (ns: seq<string>)
    ensures |ns| == |s| && forall j :: 0 <= j < |s| ==> ns[j] == s[j].name
  {
    seq(|s|, j requires 0 <= j < |s| => s[j].name)
  }

  /** What a subject card promises about the records rs: it counts exactly
      the records carrying its name (at least one), its present count is that
      of the PRESENT ones among them, its percentage is their rounded share in
      [0, 100], and its code is the code of the first record carrying its name. */
  ghost predicate Describes(rs: seq<AttendanceRecord>, c: SubjectStat)
  {
    && 1 <= c.total && c.present <= c.total
    && 0 <= c.percentage <= 100 && c.percentage == Percent(c.present, c.total)
    && c.total == Count(rs, OfSubject(c.name))
    && c.present == Count(rs, PresentOfSubject(c.name))
    && FirstIndex(rs, c.name) < |rs|
    && c.code == rs[FirstIndex(rs, c.name)].subject.code
  }

  /** Every subject card describes the records as above. */
  lemma SubjectCards(rs: seq<AttendanceRecord>)
    ensures forall j :: 0 <= j < |SubjectStats(rs)| ==> Describes(rs, SubjectStats(rs)[j])
  {
    GroupedBounds(rs);
    GroupedCodes(rs);
    GroupedCounts(rs);
    var s, g := SubjectStats(rs), Grouped(rs);
    forall j | 0 <= j < |s|
      ensures Describes(rs, s[j])
    {
      assert s[j] == CardOf(g[j]);
    }
  }

  /** The cards carry distinct subject names, every record's subject name has
      a card, and the cards come in the order their names first occur. */
  lemma SubjectCardOrder(rs: seq<AttendanceRecord>)
    ensures CardNames(SubjectStats(rs)) == SubjectNames(rs)
    ensures Distinct(CardNames(SubjectStats(rs)))
    ensures forall i :: 0 <= i < |rs| ==> rs[i].subject.name in CardNames(SubjectStats(rs))
    ensures forall i, j :: 0 <= i < j < |SubjectStats(rs)| ==>
      FirstIndex(rs, SubjectStats(rs)[i].name) < FirstIndex(rs, SubjectStats(rs)[j].name)
  {
    GroupedBounds(rs);
    GroupedNames(rs);
    var s, g, ns := SubjectStats(rs), Grouped(rs), SubjectNames(rs);
    assert NamesOf(g) == ns;
    forall j | 0 <= j < |s|
      ensures s[j].name == ns[j]
    {
      assert s[j] == CardOf(g[j]);
      assert NamesOf(g)[j] == g[j].name;
    }
    assert CardNames(s) == ns;
    SubjectNamesDistinct(rs);
    SubjectNamesCover(rs);
    SubjectNamesOrdered(rs);
  }

  function CardTotals(s: seq<SubjectStat>): nat
  {
    if s == [] then 0 else CardTotals(s[..|s| - 1]) + s[|s| - 1].total
  }

  function CardPresents(s: seq<SubjectStat>): nat
  {
    if s == [] then 0 else CardPresents(s[..|s| - 1]) + s[|s| - 1].present
  }

  lemma {:induction false} CardSums(gs: seq<Group>)
    requires forall j :: 0 <= j < |gs| ==> gs[j].tally.total > 0
    ensures CardTotals(StatsOf(gs)) == SumTotals(gs)
    ensures CardPresents(StatsOf(gs)) == SumPresents(gs)
    decreases |gs|
  {
    if gs != [] {
      var p := gs[..|gs| - 1];
      assert StatsOf(gs)[..|gs| - 1] == StatsOf(p);
      CardSums(p);
    }
  }

  /** The cards' totals add up to the number of records, and their present
      counts to the number of PRESENT records. */
  lemma SubjectCardSums(rs: seq<AttendanceRecord>)
    ensures CardTotals(SubjectStats(rs)) == |rs|
    ensures CardPresents(SubjectStats(rs)) == Count(rs, AnyPresent)
  {
    GroupedBounds(rs);
    GroupedSums(rs);
    CardSums(Grouped(rs));
  }

  /** A subject name has a card exactly when some record carries it. */
  lemma NamedIffCounted(rs: seq<AttendanceRecord>, n: string)
    ensures n in CardNames(SubjectStats(rs)) <==> Count(rs, OfSubject(n)) > 0
  {
    SubjectCardOrder(rs);
    SubjectCards(rs);
    var s := SubjectStats(rs);
    if n in CardNames(s) {
      var j :| 0 <= j < |s| && CardNames(s)[j] == n;
      assert Describes(rs, s[j]);
    } else if Count(rs, OfSubject(n)) > 0 {
      NotNamedNotFound(rs, n);
      NoneCounted(rs, n);
    }
  }

  /** Reordering the records keeps the same card names and, for each name,
      the same total, present count and percentage. */
  lemma SubjectStatsPermutation(a: seq<AttendanceRecord>, b: seq<AttendanceRecord>, n: string)
    requires multiset(a) == multiset(b)
    ensures n in CardNames(SubjectStats(a)) <==> n in CardNames(SubjectStats(b))
    ensures forall i, j ::
      (0 <= i < |SubjectStats(a)| && 0 <= j < |SubjectStats(b)| &&
       SubjectStats(a)[i].name == n && SubjectStats(b)[j].name == n) ==>
      && SubjectStats(a)[i].total == SubjectStats(b)[j].total
      && SubjectStats(a)[i].present == SubjectStats(b)[j].present
      && SubjectStats(a)[i].percentage == SubjectStats(b)[j].percentage
  {
    SubjectCards(a);
    SubjectCards(b);
    CountPermutation(a, b, OfSubject(n));
    CountPermutation(a, b, PresentOfSubject(n));
    NamedIffCounted(a, n);
    NamedIffCounted(b, n);
  }

  /** The key is the subject's name, not its id: two subjects that share a
      name are reported as one card, with the first record's code. */
  lemma NamesMergeSubjects()
    ensures var maths1 := Subject("s1", "Maths", "MA101");
            var maths2 := Subject("s2", "Maths", "MA102");
            var alice := Student("u1", "Alice", "R1", "alice@school.test");
            var rs := [AttendanceRecord("a1", "2024-01-01", Present, alice, maths1),
                       AttendanceRecord("a2", "2024-01-02", Absent, alice, maths2)];
            SubjectStats(rs) == [SubjectStat("Maths", "MA101", 50, 1, 2)]
  {
    var maths1 := Subject("s1", "Maths", "MA101");
    var maths2 := Subject("s2", "Maths", "MA102");
    var alice := Student("u1", "Alice", "R1", "alice@school.test");
    var r1 := AttendanceRecord("a1", "2024-01-01", Present, alice, maths1);
    var r2 := AttendanceRecord("a2", "2024-01-02", Absent, alice, maths2);
    var rs := [r1, r2];
    assert rs[..1] == [r1];
    assert [r1][..0] == [];
    assert Grouped([r1]) == [Group("Maths", Tally(1, 1, "MA101"))];
    assert Grouped(rs) == [Group("Maths", Tally(2, 1, "MA101"))];
    RoundDivUnique(100, 2, 50);
  }

  // --- Overall figure ---

  /** `{ total, present }` and the overall percentage of the header. */
  datatype Stats = Stats(total: nat, present: nat, percentage: int)

  /** Overall figures with the zero-total guard: no records gives 0%. */
  function OverallStats(rs: seq<AttendanceRecord>): (s: Stats)
    ensures s.total == |rs| && s.present == Count(rs, AnyPresent)
    ensures s.present <= s.total && 0 <= s.percentage <= 100
    ensures s.total == 0 ==> s.percentage == 0
    ensures s.total > 0 ==> s.percentage == Percent(s.present, s.total)
  {
    var total := |rs|;
    var present := Count(rs, AnyPresent);
    Stats(total, present, if total > 0 then Percent(present, total) else 0)
  }

  /** The examples the rounding is checked against. */
  lemma RoundingExamples()
    ensures Percent(1, 3) == 33 && Percent(2, 3) == 67 && Percent(2, 4) == 50
    ensures OverallStats([]) == Stats(0, 0, 0)
  {
    RoundDivUnique(100, 3, 33);
    RoundDivUnique(200, 3, 67);
    RoundDivUnique(200, 4, 50);
  }

  // --- Display bands ---

  /** The four card gradients, emerald to red. */
  datatype Band = Emerald | Blue | Amber | Red

  function BandRank(b: Band): nat
  {
    match b
    case Red => 0
    case Amber => 1
    case Blue => 2
    case Emerald => 3
  }

  /** `getGradientForPercentage`. */
  function Gradient(percentage: int): (b: Band)
    ensures BandRank(b) == (if percentage >= 60 then 1 else 0) + (if percentage >= 75 then 1 else 0)
                           + (if percentage >= 90 then 1 else 0)
  {
    if percentage >= 90 then Emerald
    else if percentage >= 75 then Blue
    else if percentage >= 60 then Amber
    else Red
  }

  /** A higher percentage never gets a worse band. */
  lemma GradientMonotone(p: int, q: int)
    requires p <= q
    ensures BandRank(Gradient(p)) <= BandRank(Gradient(q))
  {
  }

  /** The card's "Good" label (otherwise "Low"). */
  function IsGood(percentage: int): (good: bool)
    ensures good <==> BandRank(Gradient(percentage)) >= 2
  {
    percentage >= 75
  }

  /** The "Recent Attendance" list: `records.slice(0, 15)`. */
  function Recent(rs: seq<AttendanceRecord>): (r: seq<AttendanceRecord>)
    ensures |r| == if |rs| < 15 then |rs| else 15
    ensures r == rs[..|r|]
    ensures |rs| <= 15 ==> r == rs
  {
    rs[..if |rs| < 15 then |rs| else 15]
  }

  // --- The page's state ---

  class AttendancePage {
    var records: seq<AttendanceRecord>
    var loading: bool

    constructor ()
      ensures records == [] && loading
    {
      records := [];
      loading := true;
    }

    /** `fetchAttendance`: the snapshot is replaced only by a JSON answer with
        a success status; an error answer, a non-JSON body or an exception
        leave it as it was. Loading ends in every case. */
    method FetchAttendance(reply: Reply<seq<AttendanceRecord>>)
      modifies this
      ensures records == if reply.Ok? then reply.data else old(records)
      ensures !loading
    {
      if reply.Ok? {
        records := reply.data;
      }
      loading := false;
    }
  }
}
