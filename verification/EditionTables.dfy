/** Main's bucketing loop, the output it builds from the buckets, and the reconciliation checks that it then makes. */
module EditionTables {
  import opened Options
  import opened EditionModel
  import opened EditionCounts

  // ----- What is counted -----

  predicate Counted(r: Record) { FileOf(r) != "" && r.status != "" }

  function FileOf(r: Record): string { if r.file.Some? then r.file.value else "" }

  predicate Proposal(r: Record) { r.scopeOfficial == Some(false) || r.scope == "proposal" }

  /** The items without later repetitions, as new Set gives them. */
  function Distinct(items: seq<string>): (r: seq<string>)
    ensures forall x :: x in r <==> x in items
    ensures r == [] <==> items == []
    ensures forall i, j :: 0 <= i < j < |r| ==> r[i] != r[j]
  {
    if items == [] then [] else
      var front := Distinct(items[..|items| - 1]);
      assert items == items[..|items| - 1] + [items[|items| - 1]];
      if items[|items| - 1] in front then front else front + [items[|items| - 1]]
  }

  ghost function TestOf(env: Env, r: Record): (t: Test)
    ensures IsEdition(t.edition) && (t.edition == PROPOSALS <==> Proposal(r))
    ensures !Proposal(r) ==> ClassifiedAs(t.edition, env.frontmatter(FileOf(r)), FileOf(r), env.years)
  {
    var key := ResolveStatusKey(r, env.hostFree);
    if Proposal(r) then Test(FileOf(r), PROPOSALS, [], key) else
      var fm := env.frontmatter(FileOf(r));
      var edition := EditionOf(fm, FileOf(r), env.years);
      ClassificationIsUnique(edition, edition, fm, FileOf(r), env.years);
      Test(FileOf(r), edition, Distinct(fm.features), key)
  }

  ghost function Tests(env: Env, records: seq<Record>): seq<Test> {
    if records == [] then [] else
      var front, r := Tests(env, records[..|records| - 1]), records[|records| - 1];
      if Counted(r) then front + [TestOf(env, r)] else front
  }

  // ----- The tables -----

  datatype PathTest = PathTest(file: string, status: StatusKey)

  datatype Tables = Tables(
    buckets: map<int, Counts>, slices: map<int, map<string, Counts>>, fileEditions: map<string, string>,
    taggedTests: seq<Test>, pathTests: seq<PathTest>, classified: nat, unclassified: nat)

  function Strip(file: string): string {
    if StartsWithAt(file, 0, "test/") then file[5..] else file
  }

  function Lookup<K>(m: map<K, Counts>, k: K): Option<Counts> { if k in m then Some(m[k]) else None }

  function OrZero(c: Option<Counts>): Counts { if c.Some? then c.value else ZERO }

  function BumpAt<K>(m: map<K, Counts>, k: K, key: StatusKey): map<K, Counts> {
    m[k := OrZero(Lookup(m, k)).Bump(key)]
  }

  function SlicesOf(slices: map<int, map<string, Counts>>, year: int): map<string, Counts> {
    if year in slices then slices[year] else map[]
  }

  /** A tag's slice: its plain count, entered when something was counted. The table is an object literal, in which a
      lookup of an inherited name finds the inherited value, so that no slice is entered under such a name. */
  ghost function Slice(tests: seq<Test>, year: int, tag: string, inherited: set<string>): Option<Counts> {
    if tag in inherited then None else Entered(Tally(tests, Tagged(year, [tag])))
  }

  ghost function Entered(c: Counts): Option<Counts> { if c == ZERO then None else Some(c) }

  ghost predicate Relevant(t: Test) { t.edition > 0 && t.tags != [] }

  ghost function TaggedOnly(tests: seq<Test>): seq<Test> {
    if tests == [] then [] else
      var front, t := TaggedOnly(tests[..|tests| - 1]), tests[|tests| - 1];
      if Relevant(t) then front + [t] else front
  }

  ghost function Paths(tests: seq<Test>): seq<PathTest> {
    if tests == [] then [] else
      Paths(tests[..|tests| - 1]) + [PathTest(tests[|tests| - 1].file, tests[|tests| - 1].status)]
  }

  ghost predicate BucketsOk(tests: seq<Test>, buckets: map<int, Counts>) {
    && (forall year :: year in buckets <==> IsEdition(year))
    && (forall year :: year in buckets ==> buckets[year] == Tally(tests, InEdition(year)))
  }

  ghost predicate SlicesOk(tests: seq<Test>, slices: map<int, map<string, Counts>>, inherited: set<string>) {
    forall year, tag {:trigger Slice(tests, year, tag, inherited)} ::
      Lookup(SlicesOf(slices, year), tag) == Slice(tests, year, tag, inherited)
  }

  /** Test i is the last one of the file, and the name is that of its edition. */
  ghost predicate LastLabel(tests: seq<Test>, i: nat, file: string, name: string) {
    && i < |tests| && Strip(tests[i].file) == file
    && IsEdition(tests[i].edition) && name == EditionName(tests[i].edition)
    && forall j :: i < j < |tests| ==> Strip(tests[j].file) != file
  }

  /** Each counted file has the name of the edition of its last counted test, and no other file has a label. */
  ghost predicate FilesOk(tests: seq<Test>, fileEditions: map<string, string>) {
    && (forall t :: t in tests ==> Strip(t.file) in fileEditions)
    && (forall file :: file in fileEditions ==> exists i: nat :: LastLabel(tests, i, file, fileEditions[file]))
  }

  ghost predicate Accumulated(tests: seq<Test>, t: Tables, inherited: set<string>) {
    && BucketsOk(tests, t.buckets) && SlicesOk(tests, t.slices, inherited) && FilesOk(tests, t.fileEditions)
    && t.taggedTests == TaggedOnly(tests) && t.pathTests == Paths(tests)
    && t.unclassified == Unknown(tests) && t.classified + t.unclassified == |tests|
  }

  /** How many tests have no edition: those of proposals and those without evidence. */
  ghost function Unknown(tests: seq<Test>): nat {
    if tests == [] then 0 else Unknown(tests[..|tests| - 1]) + if tests[|tests| - 1].edition < 0 then 1 else 0
  }

  lemma BucketsNext(tests: seq<Test>, buckets: map<int, Counts>, t: Test)
    requires BucketsOk(tests, buckets) && IsEdition(t.edition)
    ensures BucketsOk(tests + [t], BumpAt(buckets, t.edition, t.status))
  {
    forall year: int ensures Tally(tests + [t], InEdition(year)) ==
      if t.edition == year then Tally(tests, InEdition(year)).Bump(t.status) else Tally(tests, InEdition(year))
    {
      TallyNext(tests, t, InEdition(year));
    }
  }

  lemma SliceNext(tests: seq<Test>, t: Test, year: int, tag: string, inherited: set<string>)
    ensures Slice(tests + [t], year, tag, inherited) ==
      var prior := Slice(tests, year, tag, inherited);
      if t.edition == year && year > 0 && tag in t.tags && tag !in inherited
      then Some(OrZero(prior).Bump(t.status)) else prior
  {
    TallyNext(tests, t, Tagged(year, [tag]));
    SharesOne(t.tags, tag);
    EnteredNext(Tally(tests, Tagged(year, [tag])), t.status);
  }

  lemma SharesOne(tags: seq<string>, tag: string)
    ensures Shares(tags, [tag]) <==> tag in tags
  {
    assert tag in [tag];
  }

  lemma EnteredNext(c: Counts, key: StatusKey)
    ensures Entered(c.Bump(key)) == Some(OrZero(Entered(c)).Bump(key))
  {}

  lemma NoSlicesNext(tests: seq<Test>, slices: map<int, map<string, Counts>>, t: Test, inherited: set<string>)
    requires SlicesOk(tests, slices, inherited) && !Relevant(t)
    ensures SlicesOk(tests + [t], slices, inherited)
  {
    forall year: int, tag: string
      ensures Slice(tests + [t], year, tag, inherited) == Slice(tests, year, tag, inherited)
    {
      SliceNext(tests, t, year, tag, inherited);
    }
  }

  /** The map with one more for each tag that is not an inherited name. */
  ghost predicate AddedTo(r: map<string, Counts>, m: map<string, Counts>, tags: seq<string>, key: StatusKey,
      inherited: set<string>) {
    forall tag {:trigger Lookup(r, tag)} ::
      Lookup(r, tag) ==
        if tag in tags && tag !in inherited then Some(OrZero(Lookup(m, tag)).Bump(key)) else Lookup(m, tag)
  }

  lemma AddedNext(r: map<string, Counts>, m: map<string, Counts>, tags: seq<string>, key: StatusKey,
      inherited: set<string>, tag: string)
    requires AddedTo(r, m, tags, key, inherited) && tag !in tags
    ensures AddedTo(if tag in inherited then r else BumpAt(r, tag, key), m, tags + [tag], key, inherited)
  {
    var s := if tag in inherited then r else BumpAt(r, tag, key);
    forall other: string
      ensures Lookup(s, other) ==
        if other in tags + [tag] && other !in inherited
        then Some(OrZero(Lookup(m, other)).Bump(key)) else Lookup(m, other)
    {
      assert Lookup(r, other) == Lookup(r, other);
    }
  }

  lemma SlicesNext(
    tests: seq<Test>, t: Test, slices: map<int, map<string, Counts>>, tagMap: map<string, Counts>,
    inherited: set<string>)
    requires SlicesOk(tests, slices, inherited) && t.edition > 0
    requires AddedTo(tagMap, SlicesOf(slices, t.edition), t.tags, t.status, inherited)
    ensures SlicesOk(tests + [t], slices[t.edition := tagMap], inherited)
  {
    var r := slices[t.edition := tagMap];
    forall year: int, tag: string ensures Lookup(SlicesOf(r, year), tag) == Slice(tests + [t], year, tag, inherited) {
      SliceNext(tests, t, year, tag, inherited);
      assert Lookup(SlicesOf(slices, year), tag) == Slice(tests, year, tag, inherited);
      assert Lookup(tagMap, tag) == Lookup(tagMap, tag);
    }
  }

  /** The slices of one test: each of its tags once. */
  method AddSlices(ghost tests: seq<Test>, slices: map<int, map<string, Counts>>, t: Test, inherited: set<string>)
    returns (r: map<int, map<string, Counts>>)
    requires SlicesOk(tests, slices, inherited) && t.edition > 0
    requires forall i, j :: 0 <= i < j < |t.tags| ==> t.tags[i] != t.tags[j]
    ensures SlicesOk(tests + [t], r, inherited)
  {
    var tagMap := SlicesOf(slices, t.edition);
    for k := 0 to |t.tags|
      invariant AddedTo(tagMap, SlicesOf(slices, t.edition), t.tags[..k], t.status, inherited)
    {
      var tag := t.tags[k];
      assert t.tags[..k + 1] == t.tags[..k] + [tag];
      AddedNext(tagMap, SlicesOf(slices, t.edition), t.tags[..k], t.status, inherited, tag);
      if tag !in inherited {
        tagMap := BumpAt(tagMap, tag, t.status);
      }
    }
    assert t.tags[..|t.tags|] == t.tags;
    SlicesNext(tests, t, slices, tagMap, inherited);
    r := slices[t.edition := tagMap];
  }

  lemma ListsNext(tests: seq<Test>, t: Test)
    ensures TaggedOnly(tests + [t]) == if Relevant(t) then TaggedOnly(tests) + [t] else TaggedOnly(tests)
    ensures Paths(tests + [t]) == Paths(tests) + [PathTest(t.file, t.status)]
    ensures Unknown(tests + [t]) == Unknown(tests) + if t.edition < 0 then 1 else 0
  {
    assert (tests + [t])[..|tests|] == tests;
  }

  function NoTables(): Tables {
    Tables(map year | year in EDITION_ORDER :: ZERO, map[], map[], [], [], 0, 0)
  }

  lemma NoTablesAccumulated(inherited: set<string>)
    ensures Accumulated([], NoTables(), inherited)
  {
    forall year: int ensures year in NoTables().buckets <==> IsEdition(year) {
      OrderListsEditions(year);
    }
  }

  lemma TestOfProposal(env: Env, r: Record)
    requires Proposal(r)
    ensures TestOf(env, r) == Test(FileOf(r), PROPOSALS, [], ResolveStatusKey(r, env.hostFree))
  {}

  /** What a test without tags or without an edition adds. */
  lemma EnteredPlain(tests: seq<Test>, tables: Tables, t: Tables, test: Test, inherited: set<string>)
    requires Accumulated(tests, tables, inherited) && !Relevant(test) && IsEdition(test.edition) && test.edition < 0
    requires t == tables.(
      buckets := BumpAt(tables.buckets, test.edition, test.status),
      fileEditions := tables.fileEditions[Strip(test.file) := EditionName(test.edition)],
      pathTests := tables.pathTests + [PathTest(test.file, test.status)],
      unclassified := tables.unclassified + 1)
    ensures Accumulated(tests + [test], t, inherited)
  {
    BucketsNext(tests, tables.buckets, test);
    ListsNext(tests, test);
    NoSlicesNext(tests, tables.slices, test, inherited);
    FilesNext(tests, tables.fileEditions, test, EditionName(test.edition));
  }

  /** The body of the loop for a record in proposal scope. */
  method EnterProposal(env: Env, ghost tests: seq<Test>, tables: Tables, r: Record) returns (t: Tables)
    requires Accumulated(tests, tables, env.inherited) && Counted(r) && Proposal(r)
    ensures Accumulated(tests + [TestOf(env, r)], t, env.inherited)
  {
    var key := ResolveStatusKey(r, env.hostFree);
    t := tables.(
      buckets := BumpAt(tables.buckets, PROPOSALS, key),
      fileEditions := tables.fileEditions[Strip(FileOf(r)) := EditionName(PROPOSALS)],
      pathTests := tables.pathTests + [PathTest(FileOf(r), key)],
      unclassified := tables.unclassified + 1);
    TestOfProposal(env, r);
    EnteredPlain(tests, tables, t, TestOf(env, r), env.inherited);
  }

  lemma TestOfStandard(env: Env, r: Record, edition: int, fm: Frontmatter)
    requires !Proposal(r) && fm == env.frontmatter(FileOf(r)) && ClassifiedAs(edition, fm, FileOf(r), env.years)
    ensures IsEdition(edition)
    ensures TestOf(env, r) == Test(FileOf(r), edition, Distinct(fm.features), ResolveStatusKey(r, env.hostFree))
  {
    ClassificationIsUnique(edition, TestOf(env, r).edition, fm, FileOf(r), env.years);
  }

  /** The body of the loop for a record in standard scope. */
  method EnterStandard(env: Env, ghost tests: seq<Test>, tables: Tables, r: Record) returns (t: Tables)
    requires Accumulated(tests, tables, env.inherited) && Counted(r) && !Proposal(r)
    ensures Accumulated(tests + [TestOf(env, r)], t, env.inherited)
  {
    var fm := env.frontmatter(FileOf(r));
    var edition := ClassifyEdition(fm, FileOf(r), env.years);
    var key := ResolveStatusKey(r, env.hostFree);
    var test := Test(FileOf(r), edition, Distinct(fm.features), key);
    TestOfStandard(env, r, edition, fm);
    BucketsNext(tests, tables.buckets, test);
    ListsNext(tests, test);
    FilesNext(tests, tables.fileEditions, test, EditionName(edition));
    var unknown := edition == UNCLASSIFIED_LEGACY || edition == UNCLASSIFIED_UNTAGGED || edition == -1;
    var slices := tables.slices;
    if edition > 0 && |fm.features| > 0 {
      slices := AddSlices(tests, slices, test, env.inherited);
    } else {
      NoSlicesNext(tests, slices, test, env.inherited);
    }
    t := Tables(
      BumpAt(tables.buckets, edition, key), slices, tables.fileEditions[Strip(FileOf(r)) := EditionName(edition)],
      if edition > 0 && |fm.features| > 0 then tables.taggedTests + [test] else tables.taggedTests,
      tables.pathTests + [PathTest(FileOf(r), key)],
      tables.classified + if unknown then 0 else 1, tables.unclassified + if unknown then 1 else 0);
  }

  lemma FilesNext(tests: seq<Test>, fileEditions: map<string, string>, t: Test, name: string)
    requires FilesOk(tests, fileEditions) && IsEdition(t.edition) && name == EditionName(t.edition)
    ensures FilesOk(tests + [t], fileEditions[Strip(t.file) := name])
  {
    var r := fileEditions[Strip(t.file) := name];
    forall file | file in r ensures exists i: nat :: LastLabel(tests + [t], i, file, r[file]) {
      if file == Strip(t.file) {
        assert LastLabel(tests + [t], |tests|, file, name);
      } else {
        var i: nat :| LastLabel(tests, i, file, fileEditions[file]);
        assert LastLabel(tests + [t], i, file, r[file]);
      }
    }
  }

  lemma TestsNext(env: Env, records: seq<Record>, k: nat)
    requires k < |records|
    ensures Tests(env, records[..k + 1]) ==
      if Counted(records[k]) then Tests(env, records[..k]) + [TestOf(env, records[k])] else Tests(env, records[..k])
  {
    assert records[..k + 1][..k] == records[..k];
  }

  method BucketRecords(env: Env, records: seq<Record>) returns (t: Tables, processed: nat)
    ensures Accumulated(Tests(env, records), t, env.inherited) && processed == |Tests(env, records)|
  {
    NoTablesAccumulated(env.inherited);
    t, processed := NoTables(), 0;
    for k := 0 to |records|
      invariant Accumulated(Tests(env, records[..k]), t, env.inherited) && processed == |Tests(env, records[..k])|
    {
      TestsNext(env, records, k);
      if FileOf(records[k]) == "" || records[k].status == "" { continue; }
      processed := processed + 1;
      if Proposal(records[k]) {
        t := EnterProposal(env, Tests(env, records[..k]), t, records[k]);
      } else {
        t := EnterStandard(env, Tests(env, records[..k]), t, records[k]);
      }
    }
    assert records[..|records|] == records;
  }

  // ----- A tag without a slice -----

  lemma EvidenceOfLet(env: Env, t: Test)
    requires env.years == map["let" := 2015]
    requires ClassifiedAs(t.edition, Frontmatter("", "", "", ["__proto__", "let"], false), "test/a.js", env.years)
    ensures t.edition == 2015
  {
    var features := ["__proto__", "let"];
    assert features[1] in features;
    assert IsLatestYear(2015, features, env.years);
    LatestYearIsUniqueHere(2015, features, env.years);
  }

  lemma LatestYearIsUniqueHere(y: int, features: seq<string>, years: YearTable)
    requires IsLatestYear(y, features, years)
    ensures forall x :: IsLatestYear(x, features, years) ==> x == y
  {
    forall x | IsLatestYear(x, features, years) ensures x == y { LatestYearIsUnique(x, y, features, years); }
  }

  lemma CountsOfOneTest(tests: seq<Test>, t: Test, tag: string, inherited: set<string>)
    requires tests == [t] && t.edition == 2015 && t.status == Pass && tag in t.tags
    ensures Tally(tests, InEdition(2015)) == Counts(1, 0, 0, 0)
    ensures Slice(tests, 2015, tag, inherited) == if tag in inherited then None else Some(Counts(1, 0, 0, 0))
  {
    assert tests == [] + [t];
    TallyNext([], t, InEdition(2015));
    SliceNext([], t, 2015, tag, inherited);
  }

  /** A test with the tags __proto__ and let is counted in its edition, and under let; under __proto__, the name of an
      inherited property, it is not, although the edition's bucket counts it. */
  lemma AnInheritedTagHasNoSlice(env: Env, r: Record, t: Tables)
    requires r == Record(Some("test/a.js"), "pass", "", None, "")
    requires env.frontmatter("test/a.js") == Frontmatter("", "", "", ["__proto__", "let"], false)
    requires env.years == map["let" := 2015] && "__proto__" in env.inherited && "let" !in env.inherited
    requires Accumulated(Tests(env, [r]), t, env.inherited)
    ensures 2015 in t.buckets && t.buckets[2015] == Counts(1, 0, 0, 0)
    ensures Lookup(SlicesOf(t.slices, 2015), "let") == Some(Counts(1, 0, 0, 0))
    ensures Lookup(SlicesOf(t.slices, 2015), "__proto__") == None
  {
    var test, tests := TestOf(env, r), Tests(env, [r]);
    OnlyTest(env, r, [r]);
    EvidenceOfLet(env, test);
    TagsOfTest(env, r, "let");
    TagsOfTest(env, r, "__proto__");
    CountsOfOneTest(tests, test, "let", env.inherited);
    CountsOfOneTest(tests, test, "__proto__", env.inherited);
    InTables(tests, t, 2015, "let", env.inherited);
    InTables(tests, t, 2015, "__proto__", env.inherited);
  }

  lemma OneOfOne(tests: seq<Test>, t: Test, year: int)
    requires tests == [t]
    ensures Tally(tests, InEdition(year)) == if t.edition == year then ZERO.Bump(t.status) else ZERO
  {
    assert tests == [] + [t];
    TallyNext([], t, InEdition(year));
  }

  /** What a row adds to its edition. */
  lemma OutcomeOfStatus(r: Record, hostFree: bool)
    ensures ZERO.Bump(ResolveStatusKey(r, hostFree)) ==
      if r.status == "pass" && !(hostFree && r.leakClass != "") then Counts(1, 0, 0, 0)
      else if r.status == "compile_error" || r.status == "compile_timeout" || r.status == "ce" then Counts(0, 0, 1, 0)
      else if r.status == "skip" then Counts(0, 0, 0, 1)
      else Counts(0, 1, 0, 0)
  {}

  /** How a run with one row comes out. A row without a file or a status is not counted. Any other is counted in the
      proposals or under the edition its evidence gives: as a pass, which without host imports must not have leaked
      one; as a compile error, of either kind or under its short name; as a skip; and otherwise as a failure. */
  lemma OneRow(env: Env, r: Record, t: Tables, year: int) returns (edition: int)
    requires Accumulated(Tests(env, [r]), t, env.inherited) && IsEdition(year)
    ensures year in t.buckets
    ensures (r.file == None || r.file == Some("") || r.status == "") ==> t.buckets[year] == Counts(0, 0, 0, 0)
    ensures r.file.Some? && (r.scopeOfficial == Some(false) || r.scope == "proposal") ==> edition == -1
    ensures r.file.Some? && r.scopeOfficial != Some(false) && r.scope != "proposal" ==>
      ClassifiedAs(edition, env.frontmatter(r.file.value), r.file.value, env.years)
    ensures (r.file.Some? && r.file.value != "" && r.status != "") ==>
      t.buckets[year] ==
        if year != edition then Counts(0, 0, 0, 0)
        else if r.status == "pass" && !(env.hostFree && r.leakClass != "") then Counts(1, 0, 0, 0)
        else if r.status == "compile_error" || r.status == "compile_timeout" || r.status == "ce" then Counts(0, 0, 1, 0)
        else if r.status == "skip" then Counts(0, 0, 0, 1)
        else Counts(0, 1, 0, 0)
  {
    edition := TestOf(env, r).edition;
    if Counted(r) {
      OnlyTest(env, r, [r]);
      OneOfOne(Tests(env, [r]), TestOf(env, r), year);
      StatusOfTest(env, r);
      OutcomeOfStatus(r, env.hostFree);
    } else {
      NoTest(env, r, [r]);
    }
    InTables(Tests(env, [r]), t, year, "", env.inherited);
  }

  lemma NoTest(env: Env, r: Record, records: seq<Record>)
    requires records == [r] && !Counted(r)
    ensures Tests(env, records) == []
  {
    TestsNext(env, records, 0);
    assert records[..1] == records && records[..0] == [];
  }

  lemma StatusOfTest(env: Env, r: Record)
    ensures TestOf(env, r).status == ResolveStatusKey(r, env.hostFree)
  {}

  lemma OnlyTest(env: Env, r: Record, records: seq<Record>)
    requires records == [r] && Counted(r)
    ensures Tests(env, records) == [TestOf(env, r)]
  {
    TestsNext(env, records, 0);
    assert records[..1] == records && records[..0] == [];
  }

  lemma InTables(tests: seq<Test>, t: Tables, year: int, tag: string, inherited: set<string>)
    requires Accumulated(tests, t, inherited) && IsEdition(year)
    ensures year in t.buckets && t.buckets[year] == Tally(tests, InEdition(year))
    ensures Lookup(SlicesOf(t.slices, year), tag) == Slice(tests, year, tag, inherited)
  {}

  lemma TagsOfTest(env: Env, r: Record, tag: string)
    requires !Proposal(r) && tag in env.frontmatter(FileOf(r)).features
    ensures tag in TestOf(env, r).tags && TestOf(env, r).status == ResolveStatusKey(r, env.hostFree)
  {}

  // ----- The output -----

  datatype EditionBucket = EditionBucket(year: int, edition: string, counts: Counts, features: map<string, Counts>)

  function NonEmpty(slices: map<string, Counts>): map<string, Counts> {
    map tag | tag in slices && slices[tag].Total() > 0 :: slices[tag]
  }

  predicate Shown(year: int, t: Tables) { year in t.buckets && t.buckets[year].Total() > 0 }

  /** The non-empty buckets of some years, in order, each with its non-empty slices. */
  ghost function Output(order: seq<int>, t: Tables): seq<EditionBucket>
    requires forall year :: year in order ==> IsEdition(year)
  {
    if order == [] then [] else
      var front, year := Output(order[..|order| - 1], t), order[|order| - 1];
      if Shown(year, t) then front + [BucketOf(year, t)] else front
  }

  ghost function BucketOf(year: int, t: Tables): EditionBucket
    requires IsEdition(year) && year in t.buckets
  {
    EditionBucket(year, EditionName(year), t.buckets[year], NonEmpty(SlicesOf(t.slices, year)))
  }

  method BuildOutput(t: Tables) returns (output: seq<EditionBucket>)
    ensures forall year :: year in EDITION_ORDER ==> IsEdition(year)
    ensures output == Output(EDITION_ORDER, t)
  {
    forall year: int ensures year in EDITION_ORDER <==> IsEdition(year) { OrderListsEditions(year); }
    output := [];
    for k := 0 to |EDITION_ORDER|
      invariant output == Output(EDITION_ORDER[..k], t)
    {
      var year := EDITION_ORDER[k];
      assert EDITION_ORDER[..k + 1][..k] == EDITION_ORDER[..k];
      if year !in t.buckets { continue; }
      var b := t.buckets[year];
      if b.Total() == 0 { continue; }
      output := output + [EditionBucket(year, EditionName(year), b, NonEmpty(SlicesOf(t.slices, year)))];
    }
    assert EDITION_ORDER[..|EDITION_ORDER|] == EDITION_ORDER;
  }

  /** What is published of a bucket: the edition's name and counts, and its slices without exception. */
  ghost predicate ShowsEdition(b: EditionBucket, tests: seq<Test>, inherited: set<string>) {
    && IsEdition(b.year) && b.edition == EditionName(b.year)
    && b.counts == Tally(tests, InEdition(b.year)) && b.counts.Total() > 0
    && forall tag {:trigger Lookup(b.features, tag)} ::
         Lookup(b.features, tag) == Slice(tests, b.year, tag, inherited)
  }

  /** The output has a bucket for each edition with a test, and no other, in the order of editions. */
  ghost predicate Published(output: seq<EditionBucket>, order: seq<int>, tests: seq<Test>, inherited: set<string>) {
    && (forall b :: b in output ==> ShowsEdition(b, tests, inherited))
    && ListsEditions(output, order, tests) && FollowsOrder(output, order)
  }

  ghost predicate InOrder(order: seq<int>, x: int, y: int) {
    exists i, j :: 0 <= i < j < |order| && order[i] == x && order[j] == y
  }

  lemma BucketShows(year: int, t: Tables, tests: seq<Test>, inherited: set<string>)
    requires BucketsOk(tests, t.buckets) && SlicesOk(tests, t.slices, inherited) && IsEdition(year) && Shown(year, t)
    ensures ShowsEdition(BucketOf(year, t), tests, inherited)
  {
    var slices := SlicesOf(t.slices, year);
    forall tag: string ensures Lookup(NonEmpty(slices), tag) == Slice(tests, year, tag, inherited) {
      assert Lookup(slices, tag) == Slice(tests, year, tag, inherited);
    }
  }

  lemma OutputNext(order: seq<int>, year: int, t: Tables)
    requires forall y :: y in order + [year] ==> IsEdition(y)
    ensures Output(order + [year], t) ==
      if Shown(year, t) then Output(order, t) + [BucketOf(year, t)] else Output(order, t)
  {
    assert (order + [year])[..|order|] == order;
  }

  lemma InLongerOrder(order: seq<int>, year: int, x: int, y: int)
    ensures InOrder(order, x, y) ==> InOrder(order + [year], x, y)
    ensures x in order ==> InOrder(order + [year], x, year)
  {
    var longer := order + [year];
    if InOrder(order, x, y) {
      var i, j :| 0 <= i < j < |order| && order[i] == x && order[j] == y;
      assert longer[i] == x && longer[j] == y;
    }
    if x in order {
      var i :| 0 <= i < |order| && order[i] == x;
      assert longer[i] == x && longer[|order|] == year;
    }
  }

  /** Every edition of the order with a test is in the output. */
  ghost predicate ListsEditions(output: seq<EditionBucket>, order: seq<int>, tests: seq<Test>) {
    forall year {:trigger Tally(tests, InEdition(year))} ::
      year in order && Tally(tests, InEdition(year)).Total() > 0 ==> exists b :: b in output && b.year == year
  }

  ghost predicate FollowsOrder(output: seq<EditionBucket>, order: seq<int>) {
    && (forall b :: b in output ==> b.year in order)
    && forall i, j :: 0 <= i < j < |output| ==> InOrder(order, output[i].year, output[j].year)
  }

  lemma ListsOneMore(output: seq<EditionBucket>, order: seq<int>, year: int, t: Tables, tests: seq<Test>)
    requires ListsEditions(output, order, tests) && BucketsOk(tests, t.buckets) && IsEdition(year)
    ensures Shown(year, t) ==> ListsEditions(output + [BucketOf(year, t)], order + [year], tests)
    ensures !Shown(year, t) ==> ListsEditions(output, order + [year], tests)
  {
    var after := if Shown(year, t) then output + [BucketOf(year, t)] else output;
    forall y | y in order + [year] && Tally(tests, InEdition(y)).Total() > 0
      ensures exists b :: b in after && b.year == y
    {
      if y == year {
        assert after[|output|].year == year;
      } else {
        assert y in order;
        var b :| b in output && b.year == y;
        assert b in after;
      }
    }
  }

  lemma FollowsLonger(output: seq<EditionBucket>, order: seq<int>, year: int, last: EditionBucket)
    requires FollowsOrder(output, order) && last.year == year
    ensures FollowsOrder(output, order + [year]) && FollowsOrder(output + [last], order + [year])
  {
    var after := output + [last];
    forall i, j | 0 <= i < j < |after| ensures InOrder(order + [year], after[i].year, after[j].year) {
      assert output[i] in output;
      InLongerOrder(order, year, output[i].year, after[j].year);
    }
    forall i, j | 0 <= i < j < |output| ensures InOrder(order + [year], output[i].year, output[j].year) {
      InLongerOrder(order, year, output[i].year, output[j].year);
    }
  }

  lemma PublishedNext(order: seq<int>, year: int, t: Tables, tests: seq<Test>, inherited: set<string>)
    requires BucketsOk(tests, t.buckets) && SlicesOk(tests, t.slices, inherited) && IsEdition(year)
    requires forall y :: y in order ==> IsEdition(y)
    requires Published(Output(order, t), order, tests, inherited)
    ensures forall y :: y in order + [year] ==> IsEdition(y)
    ensures Published(Output(order + [year], t), order + [year], tests, inherited)
  {
    OutputNext(order, year, t);
    ListsOneMore(Output(order, t), order, year, t, tests);
    if Shown(year, t) {
      BucketShows(year, t, tests, inherited);
      FollowsLonger(Output(order, t), order, year, BucketOf(year, t));
    } else {
      FollowsLonger(Output(order, t), order, year, EditionBucket(year, "", ZERO, map[]));
    }
  }

  lemma {:induction false} OutputIsPublished(order: seq<int>, t: Tables, tests: seq<Test>, inherited: set<string>)
    requires BucketsOk(tests, t.buckets) && SlicesOk(tests, t.slices, inherited)
    requires forall y :: y in order ==> IsEdition(y)
    ensures Published(Output(order, t), order, tests, inherited)
  {
    if order != [] {
      var front, year := order[..|order| - 1], order[|order| - 1];
      assert order == front + [year];
      OutputIsPublished(front, t, tests, inherited);
      PublishedNext(front, year, t, tests, inherited);
    }
  }

  // ----- The checks -----

  datatype Verdict = Fine | TotalsDiffer | SliceTooLarge(edition: string, tag: string)
                   | SlicePassesTooMany(edition: string, tag: string)
                   | FullEditionPartialSlice(edition: string, tag: string)

  ghost function SumOfTotals(output: seq<EditionBucket>): nat {
    if output == [] then 0 else SumOfTotals(output[..|output| - 1]) + output[|output| - 1].counts.Total()
  }

  ghost predicate SliceFits(f: Counts, b: Counts) {
    f.Total() <= b.Total() && f.pass <= b.pass && (b.pass == b.Total() ==> f.pass == f.Total())
  }

  ghost predicate Reconciled(output: seq<EditionBucket>, processed: nat) {
    && SumOfTotals(output) == processed
    && forall b :: b in output ==> SlicesFit(b)
  }

  ghost predicate SlicesFit(b: EditionBucket) {
    forall tag :: tag in b.features ==> SliceFits(b.features[tag], b.counts)
  }

  method CheckBucket(b: EditionBucket) returns (v: Verdict)
    ensures v.Fine? <==> SlicesFit(b)
  {
    var tags := b.features.Keys;
    while tags != {}
      invariant tags <= b.features.Keys
      invariant forall tag :: tag in b.features && tag !in tags ==> SliceFits(b.features[tag], b.counts)
      decreases |tags|
    {
      var tag :| tag in tags;
      var f := b.features[tag];
      if f.Total() > b.counts.Total() { return SliceTooLarge(b.edition, tag); }
      if f.pass > b.counts.pass { return SlicePassesTooMany(b.edition, tag); }
      if b.counts.pass == b.counts.Total() && f.pass != f.Total() { return FullEditionPartialSlice(b.edition, tag); }
      tags := tags - {tag};
    }
    return Fine;
  }

  /** The errors that main throws after bucketing: none exactly when the output is reconciled. */
  method CheckOutput(output: seq<EditionBucket>, processed: nat) returns (v: Verdict)
    ensures v.Fine? <==> Reconciled(output, processed)
  {
    var accounted := 0;
    for k := 0 to |output|
      invariant accounted == SumOfTotals(output[..k])
    {
      assert output[..k + 1][..k] == output[..k];
      accounted := accounted + output[k].counts.Total();
    }
    assert output[..|output|] == output;
    if accounted != processed { return TotalsDiffer; }
    for k := 0 to |output|
      invariant forall j :: 0 <= j < k ==> SlicesFit(output[j])
    {
      v := CheckBucket(output[k]);
      if !v.Fine? { return v; }
    }
    return Fine;
  }

  // ----- Why they are never thrown -----

  ghost function Occurrences(order: seq<int>, year: int): nat {
    if order == [] then 0 else Occurrences(order[..|order| - 1], year) + if order[|order| - 1] == year then 1 else 0
  }

  lemma {:induction false} NoOccurrence(order: seq<int>, year: int)
    requires year !in order
    ensures Occurrences(order, year) == 0
  {
    if order != [] { NoOccurrence(order[..|order| - 1], year); }
  }

  lemma {:induction false} OneOccurrence(order: seq<int>, i: nat)
    requires i < |order| && forall j :: 0 <= j < |order| && j != i ==> order[j] != order[i]
    ensures Occurrences(order, order[i]) == 1
    decreases |order|
  {
    var front := order[..|order| - 1];
    if i == |order| - 1 {
      NoOccurrence(front, order[i]);
    } else {
      assert front[i] == order[i];
      OneOccurrence(front, i);
    }
  }

  lemma EachEditionOccursOnce(year: int)
    requires IsEdition(year)
    ensures Occurrences(EDITION_ORDER, year) == 1
  {
    var i := if year == 5 then 0 else if year < 0 then 13 - year else year - 2014;
    OneOccurrence(EDITION_ORDER, i);
  }

  ghost function SumOfTallies(order: seq<int>, tests: seq<Test>): nat {
    if order == [] then 0
    else SumOfTallies(order[..|order| - 1], tests) + Tally(tests, InEdition(order[|order| - 1])).Total()
  }

  lemma {:induction false} SumNext(order: seq<int>, tests: seq<Test>, t: Test)
    ensures SumOfTallies(order, tests + [t]) == SumOfTallies(order, tests) + Occurrences(order, t.edition)
    decreases |order|
  {
    if order != [] {
      SumNext(order[..|order| - 1], tests, t);
      TallyNext(tests, t, InEdition(order[|order| - 1]));
    }
  }

  lemma {:induction false} SumOfNothing(order: seq<int>)
    ensures SumOfTallies(order, []) == 0
  {
    if order != [] { SumOfNothing(order[..|order| - 1]); }
  }

  lemma {:induction false} EditionsAddUp(tests: seq<Test>)
    requires forall t :: t in tests ==> IsEdition(t.edition)
    ensures SumOfTallies(EDITION_ORDER, tests) == |tests|
  {
    if tests == [] {
      SumOfNothing(EDITION_ORDER);
    } else {
      var front, t := tests[..|tests| - 1], tests[|tests| - 1];
      assert tests == front + [t];
      EditionsAddUp(front);
      SumNext(EDITION_ORDER, front, t);
      EachEditionOccursOnce(t.edition);
    }
  }

  lemma SumOfTotalsNext(output: seq<EditionBucket>, b: EditionBucket)
    ensures SumOfTotals(output + [b]) == SumOfTotals(output) + b.counts.Total()
  {
    assert (output + [b])[..|output|] == output;
  }

  lemma {:induction false} OutputAddsUp(order: seq<int>, t: Tables, tests: seq<Test>)
    requires BucketsOk(tests, t.buckets) && forall year :: year in order ==> IsEdition(year)
    ensures SumOfTotals(Output(order, t)) == SumOfTallies(order, tests)
    decreases |order|
  {
    if order != [] {
      var front, year := order[..|order| - 1], order[|order| - 1];
      OutputAddsUp(front, t, tests);
      SumOfTotalsNext(Output(front, t), BucketOf(year, t));
      assert BucketOf(year, t).counts == Tally(tests, InEdition(year));
    }
  }

  lemma {:induction false} OutputIsBuckets(order: seq<int>, t: Tables, b: EditionBucket)
    requires forall year :: year in order ==> IsEdition(year)
    requires b in Output(order, t)
    ensures exists year :: year in order && year in t.buckets && b == BucketOf(year, t)
    decreases |order|
  {
    var front, year := order[..|order| - 1], order[|order| - 1];
    if b in Output(front, t) { OutputIsBuckets(front, t, b); }
  }

  /** A slice is a part of its edition, outcome by outcome. */
  lemma SliceIsPart(tests: seq<Test>, year: int, tag: string)
    ensures Tally(tests, Tagged(year, [tag])).AtMost(Tally(tests, InEdition(year)))
  {
    TallyOfFewer(tests, Tagged(year, [tag]), InEdition(year));
  }

  lemma PartFits(f: Counts, b: Counts)
    requires f.AtMost(b)
    ensures SliceFits(f, b)
  {}

  lemma BucketSlicesFit(tests: seq<Test>, t: Tables, inherited: set<string>, year: int)
    requires BucketsOk(tests, t.buckets) && SlicesOk(tests, t.slices, inherited) && IsEdition(year)
    ensures SlicesFit(BucketOf(year, t))
  {
    var features := SlicesOf(t.slices, year);
    forall tag | tag in features ensures SliceFits(features[tag], t.buckets[year]) {
      assert Lookup(features, tag) == Slice(tests, year, tag, inherited);
      SliceIsPart(tests, year, tag);
      PartFits(features[tag], t.buckets[year]);
    }
  }

  lemma TablesReconcile(order: seq<int>, tests: seq<Test>, t: Tables, inherited: set<string>)
    requires Accumulated(tests, t, inherited) && forall year :: year in order ==> IsEdition(year)
    requires SumOfTallies(order, tests) == |tests|
    ensures Reconciled(Output(order, t), |tests|)
  {
    OutputAddsUp(order, t, tests);
    forall b | b in Output(order, t) ensures SlicesFit(b) {
      OutputIsBuckets(order, t, b);
      var year :| year in order && year in t.buckets && b == BucketOf(year, t);
      BucketSlicesFit(tests, t, inherited, year);
    }
  }

  lemma {:induction false} TestsHaveEditions(env: Env, records: seq<Record>)
    ensures forall t :: t in Tests(env, records) ==> IsEdition(t.edition)
  {
    if records != [] { TestsHaveEditions(env, records[..|records| - 1]); }
  }

  /** Deduplication, bucketing, output and checks, for any rows: none of the errors is thrown. */
  method Generate(env: Env, rows: seq<Record>) returns (output: seq<EditionBucket>, t: Tables, v: Verdict)
    ensures v.Fine?
    ensures Accumulated(Tests(env, Records(rows)), t, env.inherited)
    ensures Published(output, EDITION_ORDER, Tests(env, Records(rows)), env.inherited)
    ensures Reconciled(output, |Tests(env, Records(rows))|)
  {
    var records, dropped := Deduplicate(rows);
    var processed: nat;
    t, processed := BucketRecords(env, records);
    TestsHaveEditions(env, records);
    output := BuildOutput(t);
    OutputIsPublished(EDITION_ORDER, t, Tests(env, records), env.inherited);
    EditionsAddUp(Tests(env, records));
    TablesReconcile(EDITION_ORDER, Tests(env, records), t, env.inherited);
    v := CheckOutput(output, processed);
  }

  // ----- Passes without host imports -----

  ghost predicate Demoted(raw: Counts, free: Counts, leaks: nat) {
    && free.ce == raw.ce && free.skip == raw.skip
    && free.pass + leaks == raw.pass && free.fail == raw.fail + leaks
  }

  lemma DemotedNext(raw: Counts, free: Counts, leaks: nat, key: StatusKey)
    requires Demoted(raw, free, leaks)
    ensures Demoted(raw.Bump(key), free.Bump(key), leaks)
    ensures Demoted(raw.Bump(Pass), free.Bump(Fail), leaks + 1)
    ensures free.Total() == raw.Total()
  {}

  predicate Leaky(r: Record) { r.status == "pass" && r.leakClass != "" }

  lemma KeyWithoutHost(r: Record)
    ensures if Leaky(r) then ResolveStatusKey(r, false) == Pass && ResolveStatusKey(r, true) == Fail
            else ResolveStatusKey(r, true) == ResolveStatusKey(r, false)
  {}

  /** Leaving out passes that leaked a host import moves them to the failures and changes nothing else. */
  lemma {:induction false} HostFreeOnlyDemotes(env: Env, free: Env, records: seq<Record>, year: int)
    requires !env.hostFree && free == env.(hostFree := true)
    ensures Demoted(Tally(Tests(env, records), InEdition(year)), Tally(Tests(free, records), InEdition(year)),
        Leaks(env, records, year))
  {
    if records != [] {
      var front, r := records[..|records| - 1], records[|records| - 1];
      HostFreeOnlyDemotes(env, free, front, year);
      if Counted(r) {
        DemotedTest(env, free, Tests(env, front), Tests(free, front), r, year, Leaks(env, front, year));
      }
    }
  }

  lemma DemotedTest(env: Env, free: Env, tests: seq<Test>, freeTests: seq<Test>, r: Record, year: int, leaks: nat)
    requires !env.hostFree && free == env.(hostFree := true)
    requires Demoted(Tally(tests, InEdition(year)), Tally(freeTests, InEdition(year)), leaks)
    ensures Demoted(
      Tally(tests + [TestOf(env, r)], InEdition(year)), Tally(freeTests + [TestOf(free, r)], InEdition(year)),
      leaks + if Leaky(r) && TestOf(env, r).edition == year then 1 else 0)
  {
    TallyNext(tests, TestOf(env, r), InEdition(year));
    TallyNext(freeTests, TestOf(free, r), InEdition(year));
    SameEdition(env, r);
    KeyWithoutHost(r);
    DemotedNext(Tally(tests, InEdition(year)), Tally(freeTests, InEdition(year)), leaks, ResolveStatusKey(r, false));
  }

  lemma SameEdition(env: Env, r: Record)
    ensures TestOf(env.(hostFree := true), r).edition == TestOf(env, r).edition
  {
    if !Proposal(r) {
      ClassificationIsUnique(
        TestOf(env, r).edition, TestOf(env.(hostFree := true), r).edition, env.frontmatter(FileOf(r)), FileOf(r),
        env.years);
    }
  }

  /** How many records of an edition passed with a host import. */
  ghost function Leaks(env: Env, records: seq<Record>, year: int): nat {
    if records == [] then 0 else
      var r := records[|records| - 1];
      Leaks(env, records[..|records| - 1], year) +
      if Counted(r) && Leaky(r) && TestOf(env, r).edition == year then 1 else 0
  }
}
