/** The two ways of scoring a feature row: by tags within the row's edition, with an index by year, and by path prefixes
    over all editions. */
module FeatureRows {
  import opened Options
  import opened EditionModel
  import opened EditionCounts
  import opened EditionTables

  // ----- By tags -----

  /** A feature with its tags and, unless its section has none, the year of its section. */
  datatype Feature = Feature(name: string, tags: seq<string>, year: Option<int>)
  datatype Candidate = Candidate(name: string, tags: seq<string>)

  /** The plain filter that defines a row. A feature without tags or without a year after 0 has only a headline. */
  ghost function RowCount(tests: seq<Test>, f: Feature): Counts {
    if HasRow(f) then Tally(tests, Tagged(f.year.value, f.tags)) else ZERO
  }

  predicate HasRow(f: Feature) { f.year.Some? && f.year.value > 0 && f.tags != [] }

  ghost predicate DistinctNames(features: seq<Feature>) {
    forall i, j :: 0 <= i < j < |features| ==> features[i].name != features[j].name
  }

  function CandidatesOf(byYear: map<int, seq<Candidate>>, year: int): seq<Candidate> {
    if year in byYear then byYear[year] else []
  }

  ghost predicate HasCandidate(features: seq<Feature>, year: int, c: Candidate) {
    exists f :: f in features && HasRow(f) && f.year.value == year && c == Candidate(f.name, f.tags)
  }

  /** The candidates of a year are the features with a row in it, and no other year's. */
  ghost predicate IsIndex(byYear: map<int, seq<Candidate>>, features: seq<Feature>) {
    && (forall year, c :: c in CandidatesOf(byYear, year) <==> HasCandidate(features, year, c))
    && (forall year, i, j :: 0 <= i < j < |CandidatesOf(byYear, year)| ==>
          CandidatesOf(byYear, year)[i].name != CandidatesOf(byYear, year)[j].name)
  }

  lemma CandidateNext(features: seq<Feature>, f: Feature, year: int, c: Candidate)
    ensures HasCandidate(features + [f], year, c) <==>
      HasCandidate(features, year, c) || (HasRow(f) && f.year.value == year && c == Candidate(f.name, f.tags))
  {
    if HasCandidate(features, year, c) {
      var g :| g in features && HasRow(g) && g.year.value == year && c == Candidate(g.name, g.tags);
      assert g in features + [f];
    }
    assert f in features + [f];
  }

  lemma IndexNext(byYear: map<int, seq<Candidate>>, features: seq<Feature>, f: Feature)
    requires IsIndex(byYear, features) && DistinctNames(features + [f])
    ensures !HasRow(f) ==> IsIndex(byYear, features + [f])
    ensures HasRow(f) ==>
      IsIndex(byYear[f.year.value := CandidatesOf(byYear, f.year.value) + [Candidate(f.name, f.tags)]], features + [f])
  {
    forall year: int, c: Candidate
      ensures HasCandidate(features + [f], year, c) <==>
        HasCandidate(features, year, c) || (HasRow(f) && f.year.value == year && c == Candidate(f.name, f.tags))
    {
      CandidateNext(features, f, year, c);
    }
    var longer := features + [f];
    forall g | g in features ensures g.name != f.name {
      var i :| 0 <= i < |features| && features[i] == g;
      assert longer[i] == g && longer[|features|] == f;
    }
    if HasRow(f) {
      var r := byYear[f.year.value := CandidatesOf(byYear, f.year.value) + [Candidate(f.name, f.tags)]];
      forall year, i, j | 0 <= i < j < |CandidatesOf(r, year)|
        ensures CandidatesOf(r, year)[i].name != CandidatesOf(r, year)[j].name
      {
        var before := CandidatesOf(byYear, year);
        if year == f.year.value {
          assert CandidatesOf(r, year) == before + [Candidate(f.name, f.tags)];
          assert before[i] in before;
          if j < |before| { assert before[i].name != before[j].name; }
        } else {
          assert CandidatesOf(r, year) == before;
        }
      }
    }
  }

  method BuildIndex(features: seq<Feature>) returns (byYear: map<int, seq<Candidate>>, acc: map<string, Counts>)
    requires DistinctNames(features)
    ensures IsIndex(byYear, features)
    ensures forall name :: name in acc <==> exists f :: f in features && f.name == name
    ensures forall name :: name in acc ==> acc[name] == ZERO
  {
    byYear, acc := map[], map[];
    for k := 0 to |features|
      invariant IsIndex(byYear, features[..k])
      invariant forall name :: name in acc <==> exists f :: f in features[..k] && f.name == name
      invariant forall name :: name in acc ==> acc[name] == ZERO
    {
      var f := features[k];
      assert features[..k + 1] == features[..k] + [f];
      IndexNext(byYear, features[..k], f);
      acc := acc[f.name := ZERO];
      if f.year.None? || f.year.value <= 0 || |f.tags| == 0 { continue; }
      byYear := byYear[f.year.value := CandidatesOf(byYear, f.year.value) + [Candidate(f.name, f.tags)]];
    }
    assert features[..|features|] == features;
  }

  /** The scan for a first common tag. */
  method Hits(tags: seq<string>, testTags: set<string>) returns (hit: bool)
    ensures hit <==> exists tag :: tag in testTags && tag in tags
  {
    hit := false;
    for k := 0 to |tags|
      invariant !hit && forall j :: 0 <= j < k ==> tags[j] !in testTags
    {
      if tags[k] in testTags { return true; }
    }
  }

  ghost predicate Rows(acc: map<string, Counts>, tests: seq<Test>, features: seq<Feature>) {
    && (forall f :: f in features ==> f.name in acc && acc[f.name] == RowCount(tests, f))
    && (forall name :: name in acc ==> exists f :: f in features && f.name == name)
  }

  ghost predicate IsHit(t: Test, c: Candidate) { Shares(t.tags, c.tags) }

  ghost predicate HitAmong(candidates: seq<Candidate>, t: Test, name: string) {
    exists c :: c in candidates && c.name == name && IsHit(t, c)
  }

  /** acc with one more for each candidate that the test hits. */
  ghost predicate CountedIn(r: map<string, Counts>, acc: map<string, Counts>, candidates: seq<Candidate>, t: Test) {
    && r.Keys == acc.Keys
    && forall name {:trigger r[name]} :: name in r ==>
         r[name] == if HitAmong(candidates, t, name) then acc[name].Bump(t.status) else acc[name]
  }

  method CountTest(acc: map<string, Counts>, candidates: seq<Candidate>, t: Test) returns (r: map<string, Counts>)
    requires forall c :: c in candidates ==> c.name in acc
    requires forall i, j :: 0 <= i < j < |candidates| ==> candidates[i].name != candidates[j].name
    ensures CountedIn(r, acc, candidates, t)
  {
    var testTags := set tag | tag in t.tags;
    r := acc;
    for k := 0 to |candidates|
      invariant CountedIn(r, acc, candidates[..k], t)
    {
      var c := candidates[k];
      var hit := Hits(c.tags, testTags);
      assert hit <==> IsHit(t, c);
      CountedNext(r, acc, candidates, k, t);
      if hit {
        r := r[c.name := r[c.name].Bump(t.status)];
      }
    }
    assert candidates[..|candidates|] == candidates;
  }

  lemma CountedNext(r: map<string, Counts>, acc: map<string, Counts>, candidates: seq<Candidate>, k: nat, t: Test)
    requires k < |candidates| && CountedIn(r, acc, candidates[..k], t) && candidates[k].name in acc
    requires forall i, j :: 0 <= i < j < |candidates| ==> candidates[i].name != candidates[j].name
    ensures var c := candidates[k];
      CountedIn(if IsHit(t, c) then r[c.name := r[c.name].Bump(t.status)] else r, acc, candidates[..k + 1], t)
  {
    var c := candidates[k];
    assert candidates[..k + 1] == candidates[..k] + [c];
    forall name: string
      ensures HitAmong(candidates[..k + 1], t, name) <==>
          HitAmong(candidates[..k], t, name) || (c.name == name && IsHit(t, c))
    {
    }
    assert !HitAmong(candidates[..k], t, c.name);
  }

  lemma RowsNext(r: map<string, Counts>, acc: map<string, Counts>, byYear: map<int, seq<Candidate>>, tests: seq<Test>,
      t: Test, features: seq<Feature>)
    requires Rows(acc, tests, features) && IsIndex(byYear, features) && DistinctNames(features)
    requires CountedIn(r, acc, CandidatesOf(byYear, t.edition), t)
    ensures Rows(r, tests + [t], features)
  {
    var candidates := CandidatesOf(byYear, t.edition);
    forall f | f in features ensures f.name in r && r[f.name] == RowCount(tests + [t], f) {
      HitIsSelected(candidates, byYear, t, f, features);
      if HasRow(f) {
        TallyNext(tests, t, Tagged(f.year.value, f.tags));
      }
    }
  }

  lemma HitIsSelected(candidates: seq<Candidate>, byYear: map<int, seq<Candidate>>, t: Test, f: Feature,
      features: seq<Feature>)
    requires IsIndex(byYear, features) && DistinctNames(features) && f in features &&
        candidates == CandidatesOf(byYear, t.edition)
    ensures HitAmong(candidates, t, f.name) <==> HasRow(f) && Selected(t, Tagged(f.year.value, f.tags))
  {
    if HitAmong(candidates, t, f.name) {
      var c :| c in candidates && c.name == f.name && IsHit(t, c);
      var g :| g in features && HasRow(g) && g.year.value == t.edition && c == Candidate(g.name, g.tags);
      SameName(features, f, g);
    }
    if HasRow(f) && Selected(t, Tagged(f.year.value, f.tags)) {
      assert Candidate(f.name, f.tags) in candidates;
    }
  }

  lemma SameName(features: seq<Feature>, f: Feature, g: Feature)
    requires DistinctNames(features) && f in features && g in features && f.name == g.name
    ensures f == g
  {
    var i, j :| 0 <= i < |features| && 0 <= j < |features| && features[i] == f && features[j] == g;
  }

  /** computeFeatureRowCounts: the counts kept by the index are the plain filter's. */
  method ComputeFeatureRowCounts(tests: seq<Test>, features: seq<Feature>) returns (out: map<string, Counts>)
    requires DistinctNames(features)
    ensures Rows(out, tests, features)
  {
    var byYear, acc := BuildIndex(features);
    for k := 0 to |tests|
      invariant Rows(acc, tests[..k], features)
    {
      var t := tests[k];
      assert tests[..k + 1] == tests[..k] + [t];
      var candidates := CandidatesOf(byYear, t.edition);
      if |candidates| == 0 || |t.tags| == 0 {
        RowsNext(acc, acc, byYear, tests[..k], t, features);
        continue;
      }
      var r := CountTest(acc, candidates, t);
      RowsNext(r, acc, byYear, tests[..k], t, features);
      acc := r;
    }
    assert tests[..|tests|] == tests;
    out := acc;
  }

  /** Leaving out the tests that carry no tag, or whose year is not after 0, changes no row. */
  lemma {:induction false} TaggedTestsSuffice(tests: seq<Test>, f: Feature)
    ensures RowCount(TaggedOnly(tests), f) == RowCount(tests, f)
  {
    if tests != [] && HasRow(f) {
      var front, t := tests[..|tests| - 1], tests[|tests| - 1];
      TaggedTestsSuffice(front, f);
      TallyNext(TaggedOnly(front), t, Tagged(f.year.value, f.tags));
    }
  }

  /** A row is a part of its edition's bucket, outcome by outcome, and is full when the edition is. */
  lemma RowFitsItsEdition(tests: seq<Test>, f: Feature)
    requires HasRow(f)
    ensures RowCount(tests, f).AtMost(Tally(tests, InEdition(f.year.value)))
    ensures SliceFits(RowCount(tests, f), Tally(tests, InEdition(f.year.value)))
  {
    TallyOfFewer(tests, Tagged(f.year.value, f.tags), InEdition(f.year.value));
  }

  // ----- By paths -----

  predicate Matches(file: string, prefixes: seq<string>) {
    exists p :: p in prefixes && (file == p || StartsWithAt(file, 0, p + "/"))
  }

  lemma Stripped(path: string)
    ensures Strip("test/" + path) == path
  {
    assert ("test/" + path)[..5] == "test/" && ("test/" + path)[5..] == path;
  }

  lemma MatchesOne(file: string, p: string)
    ensures Matches(file, [p]) <==> file == p || StartsWithAt(file, 0, p + "/")
  {
    assert [p][0] == p && p in [p];
  }

  /** What one prefix counts, told by the file of a result row, which begins with test/: the file of that path and those
      in the directory of that path, and no file whose path only begins with the same letters. */
  lemma PrefixCounts(path: string, p: string)
    ensures Matches(Strip("test/" + path), [p]) <==> path == p || exists rest: string :: path == p + "/" + rest
    ensures |path| > |p| && path[|p|] != '/' ==> !Matches(Strip("test/" + path), [p])
  {
    Stripped(path);
    MatchesOne(path, p);
    StartsWithIff(path, p + "/");
    if StartsWithAt(path, 0, p + "/") {
      assert path[|p|] == path[..|p + "/"|][|p|] == '/';
    }
  }

  /** Several prefixes count what one of them counts. */
  lemma PrefixesCount(file: string, prefixes: seq<string>)
    ensures Matches(file, prefixes) <==> exists p :: p in prefixes && Matches(file, [p])
  {
    forall p ensures Matches(file, [p]) <==> file == p || StartsWithAt(file, 0, p + "/") { MatchesOne(file, p); }
  }

  /** The outcomes of the tests whose stripped path matches. */
  ghost function PathCount(tests: seq<PathTest>, prefixes: seq<string>): Counts {
    if |tests| == 0 then ZERO else
      var c, t := PathCount(tests[..|tests| - 1], prefixes), tests[|tests| - 1];
      if Matches(Strip(t.file), prefixes) then c.Bump(t.status) else c
  }

  /** How many matching tests have the label. */
  ghost function LabelCount(tests: seq<PathTest>, prefixes: seq<string>, labels: map<string, string>,
      name: string): Slot {
    if |tests| == 0 then Slot(0, 0) else
      var c, t := LabelCount(tests[..|tests| - 1], prefixes, labels, name), tests[|tests| - 1];
      if Matches(Strip(t.file), prefixes) && LabelOf(labels, t) == name then c.Count(t.status) else c
  }

  /** The edition label of a test's file, or "" without one. */
  function LabelOf(labels: map<string, string>, t: PathTest): string {
    if Strip(t.file) in labels then labels[Strip(t.file)] else ""
  }

  datatype Slot = Slot(pass: nat, total: nat) {
    function Count(status: StatusKey): Slot { Slot(pass + if status == Pass then 1 else 0, total + 1) }

    function Plus(other: Slot): Slot { Slot(pass + other.pass, total + other.total) }
  }

  datatype EditionSlice = EditionSlice(edition: string, slot: Slot)

  ghost function Sum(spread: seq<EditionSlice>): Slot {
    if |spread| == 0 then Slot(0, 0) else Sum(spread[..|spread| - 1]).Plus(spread[|spread| - 1].slot)
  }

  lemma SumOfOneMore(spread: seq<EditionSlice>, s: EditionSlice)
    ensures Sum(spread + [s]) == Sum(spread).Plus(s.slot)
  {
    assert (spread + [s])[..|spread|] == spread;
  }

  lemma {:induction false} SumAfterCount(spread: seq<EditionSlice>, i: nat, status: StatusKey)
    requires i < |spread|
    ensures Sum(spread[i := EditionSlice(spread[i].edition, spread[i].slot.Count(status))]) == Sum(spread).Count(status)
    decreases |spread|
  {
    var front := spread[..|spread| - 1];
    var after := spread[i := EditionSlice(spread[i].edition, spread[i].slot.Count(status))];
    if i < |front| {
      SumAfterCount(front, i, status);
      assert after[..|front|] == front[i := EditionSlice(front[i].edition, front[i].slot.Count(status))];
    } else {
      assert after[..|front|] == front;
    }
  }

  /** Each label that some matching test has is listed once, with its count. */
  ghost predicate IsSpread(spread: seq<EditionSlice>, tests: seq<PathTest>, prefixes: seq<string>,
      labels: map<string, string>) {
    && (forall i, j :: 0 <= i < j < |spread| ==> spread[i].edition != spread[j].edition)
    && (forall i :: 0 <= i < |spread| ==>
          spread[i].edition != "" && spread[i].slot == LabelCount(tests, prefixes, labels, spread[i].edition))
    && (forall name {:trigger LabelCount(tests, prefixes, labels, name)} ::
          name != "" && LabelCount(tests, prefixes, labels, name).total > 0 ==> Listed(spread, name))
  }

  ghost predicate Listed(spread: seq<EditionSlice>, name: string) {
    exists i :: 0 <= i < |spread| && spread[i].edition == name
  }

  lemma LabelNext(tests: seq<PathTest>, t: PathTest, prefixes: seq<string>, labels: map<string, string>, name: string)
    ensures LabelCount(tests + [t], prefixes, labels, name) ==
      var c := LabelCount(tests, prefixes, labels, name);
      if Matches(Strip(t.file), prefixes) && LabelOf(labels, t) == name then c.Count(t.status) else c
  {
    assert (tests + [t])[..|tests|] == tests;
  }

  lemma PathNext(tests: seq<PathTest>, t: PathTest, prefixes: seq<string>)
    ensures PathCount(tests + [t], prefixes) ==
      var c := PathCount(tests, prefixes);
      if Matches(Strip(t.file), prefixes) then c.Bump(t.status) else c
  {
    assert (tests + [t])[..|tests|] == tests;
  }

  lemma SameSpread(spread: seq<EditionSlice>, tests: seq<PathTest>, t: PathTest, prefixes: seq<string>,
      labels: map<string, string>)
    requires IsSpread(spread, tests, prefixes, labels)
    requires !Matches(Strip(t.file), prefixes) || LabelOf(labels, t) == ""
    ensures IsSpread(spread, tests + [t], prefixes, labels)
  {
    forall name: string
      ensures name != "" ==>
          LabelCount(tests + [t], prefixes, labels, name) == LabelCount(tests, prefixes, labels, name)
    {
      LabelNext(tests, t, prefixes, labels, name);
    }
  }

  /** The spread after one more matching test with a label. */
  method CountLabel(
    spread: seq<EditionSlice>, ghost tests: seq<PathTest>, t: PathTest, ghost prefixes: seq<string>,
    labels: map<string, string>)
    returns (r: seq<EditionSlice>)
    requires IsSpread(spread, tests, prefixes, labels) && Matches(Strip(t.file), prefixes) && LabelOf(labels, t) != ""
    ensures IsSpread(r, tests + [t], prefixes, labels)
    ensures Sum(r) == Sum(spread).Count(t.status)
  {
    var name := LabelOf(labels, t);
    OneMoreLabelHolds(tests, t, prefixes, labels);
    var i := 0;
    while i < |spread| && spread[i].edition != name
      invariant i <= |spread| && forall j :: 0 <= j < i ==> spread[j].edition != name
    {
      i := i + 1;
    }
    if i < |spread| {
      SumAfterCount(spread, i, t.status);
      r := spread[i := EditionSlice(name, spread[i].slot.Count(t.status))];
      SpreadUpdated(spread, r, i, tests, t, prefixes, labels);
    } else {
      SumOfOneMore(spread, EditionSlice(name, Slot(0, 0).Count(t.status)));
      r := spread + [EditionSlice(name, Slot(0, 0).Count(t.status))];
      SpreadExtended(spread, r, tests, t, prefixes, labels);
    }
  }

  ghost predicate OneMoreLabel(tests: seq<PathTest>, t: PathTest, prefixes: seq<string>, labels: map<string, string>) {
    forall other {:trigger LabelCount(tests + [t], prefixes, labels, other)} ::
      LabelCount(tests + [t], prefixes, labels, other) ==
        var c := LabelCount(tests, prefixes, labels, other);
        if LabelOf(labels, t) == other then c.Count(t.status) else c
  }

  lemma OneMoreLabelHolds(tests: seq<PathTest>, t: PathTest, prefixes: seq<string>, labels: map<string, string>)
    requires Matches(Strip(t.file), prefixes)
    ensures OneMoreLabel(tests, t, prefixes, labels)
  {
    forall other: string
      ensures LabelCount(tests + [t], prefixes, labels, other) ==
        var c := LabelCount(tests, prefixes, labels, other);
        if LabelOf(labels, t) == other then c.Count(t.status) else c
    {
      LabelNext(tests, t, prefixes, labels, other);
    }
  }

  lemma SpreadUpdated(
    spread: seq<EditionSlice>, r: seq<EditionSlice>, i: nat, tests: seq<PathTest>, t: PathTest, prefixes: seq<string>,
    labels: map<string, string>)
    requires IsSpread(spread, tests, prefixes, labels) && OneMoreLabel(tests, t, prefixes, labels)
    requires i < |spread| && spread[i].edition == LabelOf(labels, t) != ""
    requires r == spread[i := EditionSlice(spread[i].edition, spread[i].slot.Count(t.status))]
    ensures IsSpread(r, tests + [t], prefixes, labels)
  {
    forall j | 0 <= j < |r|
      ensures r[j].edition != "" && r[j].slot == LabelCount(tests + [t], prefixes, labels, r[j].edition)
    {
      assert j != i ==> spread[j].edition != spread[i].edition;
    }
    forall name | name != "" && LabelCount(tests + [t], prefixes, labels, name).total > 0
      ensures Listed(r, name)
    {
      if name == spread[i].edition {
        assert r[i].edition == name;
      } else {
        var j :| 0 <= j < |spread| && spread[j].edition == name;
        assert r[j].edition == name;
      }
    }
  }

  lemma SpreadExtended(
    spread: seq<EditionSlice>, r: seq<EditionSlice>, tests: seq<PathTest>, t: PathTest, prefixes: seq<string>,
    labels: map<string, string>)
    requires IsSpread(spread, tests, prefixes, labels) && OneMoreLabel(tests, t, prefixes, labels)
    requires LabelOf(labels, t) != "" && forall j :: 0 <= j < |spread| ==> spread[j].edition != LabelOf(labels, t)
    requires r == spread + [EditionSlice(LabelOf(labels, t), Slot(0, 0).Count(t.status))]
    ensures IsSpread(r, tests + [t], prefixes, labels)
  {
    var name := LabelOf(labels, t);
    NoneCounted(tests, prefixes, labels, name);
    assert LabelCount(tests, prefixes, labels, name) == Slot(0, 0);
    forall j | 0 <= j < |r|
      ensures r[j].edition != "" && r[j].slot == LabelCount(tests + [t], prefixes, labels, r[j].edition)
    {
      if j < |spread| { assert r[j] == spread[j]; }
    }
    forall other | other != "" && LabelCount(tests + [t], prefixes, labels, other).total > 0
      ensures Listed(r, other)
    {
      if other == name {
        assert r[|spread|].edition == name;
      } else {
        var j :| 0 <= j < |spread| && spread[j].edition == other;
        assert r[j].edition == other;
      }
    }
  }

  lemma {:induction false} NoneCounted(tests: seq<PathTest>, prefixes: seq<string>, labels: map<string, string>,
      name: string)
    ensures LabelCount(tests, prefixes, labels, name).pass <= LabelCount(tests, prefixes, labels, name).total
  {
    if tests != [] { NoneCounted(tests[..|tests| - 1], prefixes, labels, name); }
  }

  /** The matching tests that have a label. */
  ghost function Labelled(tests: seq<PathTest>, prefixes: seq<string>, labels: map<string, string>): Slot {
    if |tests| == 0 then Slot(0, 0) else
      var c, t := Labelled(tests[..|tests| - 1], prefixes, labels), tests[|tests| - 1];
      if Matches(Strip(t.file), prefixes) && LabelOf(labels, t) != "" then c.Count(t.status) else c
  }

  lemma LabelledNext(tests: seq<PathTest>, t: PathTest, prefixes: seq<string>, labels: map<string, string>)
    ensures Labelled(tests + [t], prefixes, labels) ==
      var c := Labelled(tests, prefixes, labels);
      if Matches(Strip(t.file), prefixes) && LabelOf(labels, t) != "" then c.Count(t.status) else c
  {
    assert (tests + [t])[..|tests|] == tests;
  }

  /** The body of the loop of countByPaths for a test that matches. */
  method CountPath(
    spread: seq<EditionSlice>, ghost tests: seq<PathTest>, t: PathTest, ghost prefixes: seq<string>,
    labels: map<string, string>)
    returns (r: seq<EditionSlice>)
    requires IsSpread(spread, tests, prefixes, labels) && Sum(spread) == Labelled(tests, prefixes, labels)
    requires Matches(Strip(t.file), prefixes)
    ensures IsSpread(r, tests + [t], prefixes, labels) && Sum(r) == Labelled(tests + [t], prefixes, labels)
  {
    LabelledNext(tests, t, prefixes, labels);
    if LabelOf(labels, t) == "" {
      SameSpread(spread, tests, t, prefixes, labels);
      return spread;
    }
    r := CountLabel(spread, tests, t, prefixes, labels);
  }

  /** countByPaths: the row, and its spread over the editions of the files that have a label. */
  method CountByPaths(tests: seq<PathTest>, prefixes: seq<string>, labels: map<string, string>)
    returns (acc: Counts, spread: seq<EditionSlice>)
    ensures acc == PathCount(tests, prefixes)
    ensures IsSpread(spread, tests, prefixes, labels) && Sum(spread) == Labelled(tests, prefixes, labels)
  {
    acc, spread := ZERO, [];
    Prefixes(tests);
    for k := 0 to |tests|
      invariant acc == PathCount(tests[..k], prefixes)
      invariant IsSpread(spread, tests[..k], prefixes, labels) && Sum(spread) == Labelled(tests[..k], prefixes, labels)
    {
      var t := tests[k];
      PathNext(tests[..k], t, prefixes);
      if Matches(Strip(t.file), prefixes) {
        acc := acc.Bump(t.status);
        spread := CountPath(spread, tests[..k], t, prefixes, labels);
      } else {
        SameSpread(spread, tests[..k], t, prefixes, labels);
        LabelledNext(tests[..k], t, prefixes, labels);
      }
    }
  }

  lemma Prefixes(tests: seq<PathTest>)
    ensures tests[..0] == [] && tests[..|tests|] == tests
    ensures forall k :: 0 <= k < |tests| ==> tests[..k + 1] == tests[..k] + [tests[k]]
  {}

  /** Every matching test has a label. */
  ghost predicate AllLabelled(tests: seq<PathTest>, prefixes: seq<string>, labels: map<string, string>) {
    forall t :: t in tests && Matches(Strip(t.file), prefixes) ==> LabelOf(labels, t) != ""
  }

  lemma AllLabelledNext(tests: seq<PathTest>, t: PathTest, prefixes: seq<string>, labels: map<string, string>)
    ensures AllLabelled(tests + [t], prefixes, labels) <==>
      AllLabelled(tests, prefixes, labels) && (Matches(Strip(t.file), prefixes) ==> LabelOf(labels, t) != "")
  {
    if AllLabelled(tests + [t], prefixes, labels) {
      forall u | u in tests && Matches(Strip(u.file), prefixes) ensures LabelOf(labels, u) != "" {
        assert u in tests + [t];
      }
      assert t in tests + [t];
    }
  }

  lemma PartOfRow(part: Slot, acc: Counts, all: bool, status: StatusKey)
    requires part.pass <= acc.pass && part.total <= acc.Total()
    requires (part.total == acc.Total() <==> all) && (all ==> part.pass == acc.pass)
    ensures var p, c := part.Count(status), acc.Bump(status);
      p.pass <= c.pass && p.total <= c.Total() && (p.total == c.Total() <==> all) && (all ==> p.pass == c.pass)
    ensures part.pass <= acc.Bump(status).pass && part.total < acc.Bump(status).Total()
  {}

  /** A spread never exceeds its row, and adds up to it exactly when every matching file has a label. */
  lemma {:induction false} SpreadAddsUpIff(tests: seq<PathTest>, prefixes: seq<string>, labels: map<string, string>)
    ensures Labelled(tests, prefixes, labels).pass <= PathCount(tests, prefixes).pass
    ensures Labelled(tests, prefixes, labels).total <= PathCount(tests, prefixes).Total()
    ensures Labelled(tests, prefixes, labels).total == PathCount(tests, prefixes).Total() <==>
        AllLabelled(tests, prefixes, labels)
    ensures AllLabelled(tests, prefixes, labels) ==>
        Labelled(tests, prefixes, labels).pass == PathCount(tests, prefixes).pass
  {
    if |tests| > 0 {
      var front, t := tests[..|tests| - 1], tests[|tests| - 1];
      assert tests == front + [t];
      SpreadAddsUpIff(front, prefixes, labels);
      AllLabelledNext(front, t, prefixes, labels);
      LabelledNext(front, t, prefixes, labels);
      PathNext(front, t, prefixes);
      PartOfRow(Labelled(front, prefixes, labels), PathCount(front, prefixes), AllLabelled(front, prefixes, labels),
        t.status);
    }
  }

  /** With main's tables every file is labelled, so every path row equals the sum of its spread. */
  lemma TablesLabelEverything(tests: seq<Test>, fileEditions: map<string, string>,
      prefixes: seq<string>)
    requires FilesOk(tests, fileEditions)
    ensures AllLabelled(Paths(tests), prefixes, fileEditions)
  {
    forall t | t in tests ensures Strip(t.file) in fileEditions && fileEditions[Strip(t.file)] != "" {
      var i: nat :| LastLabel(tests, i, Strip(t.file), fileEditions[Strip(t.file)]);
    }
    LabelsCoverPaths(tests, fileEditions, prefixes);
  }

  lemma {:induction false} LabelsCoverPaths(tests: seq<Test>, fileEditions: map<string, string>, prefixes: seq<string>)
    requires forall t :: t in tests ==> Strip(t.file) in fileEditions && fileEditions[Strip(t.file)] != ""
    ensures AllLabelled(Paths(tests), prefixes, fileEditions)
  {
    if tests != [] {
      LabelsCoverPaths(tests[..|tests| - 1], fileEditions, prefixes);
      assert tests[|tests| - 1] in tests;
    }
  }

  /** Some test of the file is its last, and has an edition of that name. */
  ghost predicate LastInEdition(all: seq<Test>, file: string, name: string) {
    exists i: nat :: LastLabel(all, i, file, name)
  }

  lemma LabelIsEdition(all: seq<Test>, fileEditions: map<string, string>, file: string, name: string)
    requires FilesOk(all, fileEditions) && file in fileEditions
    ensures fileEditions[file] == name <==> LastInEdition(all, file, name)
  {
    var i: nat :| LastLabel(all, i, file, fileEditions[file]);
    if LastInEdition(all, file, name) {
      var j: nat :| LastLabel(all, j, file, name);
      assert i == j;
    }
  }

  /** How many of some tests a prefix matches, by files whose last test has an edition of that name. */
  ghost function EditionCount(all: seq<Test>, tests: seq<Test>, prefixes: seq<string>, name: string): Slot {
    if |tests| == 0 then Slot(0, 0) else
      var c, t := EditionCount(all, tests[..|tests| - 1], prefixes, name), tests[|tests| - 1];
      if Matches(Strip(t.file), prefixes) && LastInEdition(all, Strip(t.file), name)
      then Slot(c.pass + if t.status == Pass then 1 else 0, c.total + 1) else c
  }

  /** The labels of main's tables count by edition. */
  lemma {:induction false} LabelsAreEditions(all: seq<Test>, tests: seq<Test>, fileEditions: map<string, string>,
      prefixes: seq<string>, name: string)
    requires FilesOk(all, fileEditions) && forall t :: t in tests ==> t in all
    ensures LabelCount(Paths(tests), prefixes, fileEditions, name) == EditionCount(all, tests, prefixes, name)
  {
    if tests != [] {
      var front, t := tests[..|tests| - 1], tests[|tests| - 1];
      assert tests == front + [t];
      LabelsAreEditions(all, front, fileEditions, prefixes, name);
      LabelNext(Paths(front), PathTest(t.file, t.status), prefixes, fileEditions, name);
      LabelIsEdition(all, fileEditions, Strip(t.file), name);
    }
  }

  // ----- The rows of a run -----

  /** The tag rows that patchFeatureExamples takes from main's tagged tests count all of main's tests. */
  method ScoreByTags(ghost tests: seq<Test>, t: Tables, ghost inherited: set<string>, features: seq<Feature>)
    returns (rows: map<string, Counts>)
    requires Accumulated(tests, t, inherited) && DistinctNames(features)
    ensures Rows(rows, tests, features)
  {
    rows := ComputeFeatureRowCounts(t.taggedTests, features);
    forall f | f in features ensures RowCount(t.taggedTests, f) == RowCount(tests, f) {
      TaggedTestsSuffice(tests, f);
    }
  }

  /** A path row over main's tables is exactly the sum of its spread. */
  method ScoreByPaths(ghost tests: seq<Test>, t: Tables, ghost inherited: set<string>, prefixes: seq<string>)
    returns (acc: Counts, spread: seq<EditionSlice>)
    requires Accumulated(tests, t, inherited)
    ensures acc == PathCount(Paths(tests), prefixes)
    ensures IsSpread(spread, Paths(tests), prefixes, t.fileEditions)
    ensures forall i :: 0 <= i < |spread| ==> spread[i].slot == EditionCount(tests, tests, prefixes, spread[i].edition)
    ensures Sum(spread) == Slot(acc.pass, acc.Total())
  {
    acc, spread := CountByPaths(t.pathTests, prefixes, t.fileEditions);
    forall i | 0 <= i < |spread| ensures spread[i].slot == EditionCount(tests, tests, prefixes, spread[i].edition) {
      LabelsAreEditions(tests, tests, t.fileEditions, prefixes, spread[i].edition);
    }
    TablesLabelEverything(tests, t.fileEditions, prefixes);
    SpreadAddsUpIff(Paths(tests), prefixes, t.fileEditions);
  }
}
