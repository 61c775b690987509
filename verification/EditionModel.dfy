/** Classification of test records by language edition and outcome. Frontmatter that has been parsed is an input. */
module EditionModel {
  import opened Options

  // ----- Outcomes -----

  datatype StatusKey = Pass | Fail | Ce | Skip

  datatype Counts = Counts(pass: nat, fail: nat, ce: nat, skip: nat) {
    function Total(): nat { pass + fail + ce + skip }

    function Bump(key: StatusKey): Counts {
      match key
      case Pass => this.(pass := pass + 1)
      case Fail => this.(fail := fail + 1)
      case Ce => this.(ce := ce + 1)
      case Skip => this.(skip := skip + 1)
    }

    function Plus(other: Counts): Counts {
      Counts(pass + other.pass, fail + other.fail, ce + other.ce, skip + other.skip)
    }

    predicate AtMost(other: Counts) {
      pass <= other.pass && fail <= other.fail && ce <= other.ce && skip <= other.skip
    }
  }

  const ZERO := Counts(0, 0, 0, 0)

  /** A result row. The file and scopeOfficial are missing when None; any other string that is missing is empty. */
  datatype Record = Record(file: Option<string>, status: string, scope: string, scopeOfficial: Option<bool>,
    leakClass: string)

  function NormalizeStatus(s: string): StatusKey {
    if s == "pass" then Pass
    else if s == "skip" then Skip
    else if s == "compile_error" || s == "compile_timeout" || s == "ce" then Ce
    else Fail
  }

  function ResolveStatusKey(record: Record, hostFree: bool): StatusKey {
    if hostFree && record.status == "pass" && record.leakClass != "" then Fail else NormalizeStatus(record.status)
  }

  // ----- Editions -----

  datatype Frontmatter = Frontmatter(es5id: string, es6id: string, esid: string, features: seq<string>,
    noFrontmatter: bool)

  const CURRENT_DRAFT_EDITION := 2027
  const PROPOSALS := -1
  const UNCLASSIFIED_LEGACY := -2
  const UNCLASSIFIED_UNTAGGED := -3

  const EDITION_ORDER: seq<int> :=
    [5, 2015, 2016, 2017, 2018, 2019, 2020, 2021, 2022, 2023, 2024, 2025, 2026, 2027,
     PROPOSALS, UNCLASSIFIED_LEGACY, UNCLASSIFIED_UNTAGGED]

  predicate IsEdition(year: int) {
    year == 5 || 2015 <= year <= 2027 || -3 <= year <= -1
  }

  function EditionName(year: int): (name: string)
    requires IsEdition(year)
    ensures name != ""
  {
    match year
    case 5 => "ES5"
    case 2015 => "ES2015"
    case 2016 => "ES2016"
    case 2017 => "ES2017"
    case 2018 => "ES2018"
    case 2019 => "ES2019"
    case 2020 => "ES2020"
    case 2021 => "ES2021"
    case 2022 => "ES2022"
    case 2023 => "ES2023"
    case 2024 => "ES2024"
    case 2025 => "ES2025"
    case 2026 => "ES2026"
    case 2027 => "ES2027"
    case -1 => "Proposals"
    case -2 => "Unclassified (legacy)"
    case _ => "Unclassified (untagged)"
  }

  function Digit(d: nat): char
    requires d < 10
  {
    '0' + d as char
  }

  /** A year after 2000 has its number in its name, edition 5 too, and no two buckets have one name. */
  lemma NamesTellEditions(x: int, y: int)
    requires IsEdition(x) && IsEdition(y)
    ensures x >= 2015 ==> EditionName(x) == "ES20" + [Digit(x / 10 % 10), Digit(x % 10)]
    ensures EditionName(5) == "ES5" && EditionName(PROPOSALS) == "Proposals"
    ensures EditionName(x) == EditionName(y) ==> x == y
  {
    var s, t := EditionName(x), EditionName(y);
    assert s == t ==> |s| == |t| && s[|s| - 1] == t[|t| - 1] && s[|s| - 2] == t[|t| - 2];
  }

  lemma OrderListsEditions(year: int)
    ensures year in EDITION_ORDER <==> IsEdition(year)
  {
    if year == 5 { assert EDITION_ORDER[0] == year; }
    if 2015 <= year <= 2027 { assert EDITION_ORDER[year - 2014] == year; }
    if -3 <= year <= -1 { assert EDITION_ORDER[13 - year] == year; }
  }

  /** Own properties of the year table: only published years and the draft. */
  type YearTable = m: map<string, int> | forall f :: f in m ==> 2015 <= m[f] <= CURRENT_DRAFT_EDITION witness map[]

  /** y is the latest year that the table gives for one of the features, or 0 when it gives none. */
  ghost predicate IsLatestYear(y: int, features: seq<string>, years: YearTable) {
    && (forall f :: f in features && f in years ==> years[f] <= y)
    && (if y == 0 then forall f :: f in features ==> f !in years
        else exists f :: f in features && f in years && years[f] == y)
  }

  predicate StartsWithAt(s: string, i: nat, t: string) { i + |t| <= |s| && s[i..i + |t|] == t }

  predicate Includes(s: string, t: string) {
    exists i: nat | i <= |s| :: StartsWithAt(s, i, t)
  }

  function ForwardSlashes(path: string): string {
    seq(|path|, i requires 0 <= i < |path| => if path[i] == '\\' then '/' else path[i])
  }

  const PATH_EDITIONS: seq<(string, int)> :=
    [("/annexB/", 5), ("/harness/", 5),
     ("/built-ins/Promise/", 2015), ("/built-ins/Proxy/", 2015), ("/built-ins/Reflect/", 2015),
     ("/built-ins/Symbol/", 2015),
     ("/built-ins/Map/", 2015), ("/built-ins/Set/", 2015), ("/built-ins/WeakMap/", 2015), ("/built-ins/WeakSet/", 2015),
     ("/built-ins/TypedArray", 2015), ("/built-ins/DataView/", 2015), ("/built-ins/ArrayBuffer/", 2015),
     ("/built-ins/SharedArrayBuffer/", 2017), ("/built-ins/Atomics/", 2017), ("/built-ins/BigInt/", 2020),
     ("/built-ins/WeakRef/", 2021), ("/built-ins/FinalizationRegistry/", 2021)]

  /** The edition of the first path rule, from k on, that applies. */
  function PathEdition(norm: string, k: nat): Option<int>
    requires k <= |PATH_EDITIONS|
    decreases |PATH_EDITIONS| - k
  {
    if k == |PATH_EDITIONS| then None
    else if Includes(norm, PATH_EDITIONS[k].0) then Some(PATH_EDITIONS[k].1)
    else PathEdition(norm, k + 1)
  }

  /** Rule i is the first from k on that applies. */
  ghost predicate FirstRule(norm: string, k: nat, i: nat) {
    && k <= i < |PATH_EDITIONS| && Includes(norm, PATH_EDITIONS[i].0)
    && forall j :: k <= j < i ==> !Includes(norm, PATH_EDITIONS[j].0)
  }

  lemma {:induction false} PathEditionFrom(norm: string, k: nat)
    requires k <= |PATH_EDITIONS|
    ensures match PathEdition(norm, k)
      case Some(year) => exists i: nat :: FirstRule(norm, k, i) && year == PATH_EDITIONS[i].1
      case None => forall i :: k <= i < |PATH_EDITIONS| ==> !Includes(norm, PATH_EDITIONS[i].0)
    decreases |PATH_EDITIONS| - k
  {
    if k < |PATH_EDITIONS| {
      if Includes(norm, PATH_EDITIONS[k].0) {
        assert FirstRule(norm, k, k);
      } else {
        PathEditionFrom(norm, k + 1);
        if PathEdition(norm, k + 1).Some? {
          var i: nat :| FirstRule(norm, k + 1, i) && PathEdition(norm, k + 1).value == PATH_EDITIONS[i].1;
          assert FirstRule(norm, k, i);
        }
      }
    }
  }

  lemma RulesByYear(i: nat, j: nat)
    requires i <= j < |PATH_EDITIONS|
    ensures PATH_EDITIONS[i].1 <= PATH_EDITIONS[j].1
  {}

  /** The path rules decide by the first that applies, which is also the earliest edition that any of them gives. */
  lemma PathGivesEarliestEdition(norm: string, year: int)
    ensures PathEdition(norm, 0) == None <==>
      forall i :: 0 <= i < |PATH_EDITIONS| ==> !Includes(norm, PATH_EDITIONS[i].0)
    ensures PathEdition(norm, 0) == Some(year) <==>
      exists i ::
        && 0 <= i < |PATH_EDITIONS| && Includes(norm, PATH_EDITIONS[i].0) && year == PATH_EDITIONS[i].1
        && forall j :: 0 <= j < i ==> !Includes(norm, PATH_EDITIONS[j].0)
    ensures PathEdition(norm, 0) == Some(year) <==>
      && (exists i :: 0 <= i < |PATH_EDITIONS| && Includes(norm, PATH_EDITIONS[i].0) && year == PATH_EDITIONS[i].1)
      && (forall j :: 0 <= j < |PATH_EDITIONS| && Includes(norm, PATH_EDITIONS[j].0) ==> year <= PATH_EDITIONS[j].1)
  {
    PathEditionFrom(norm, 0);
    if PathEdition(norm, 0).Some? {
      var i: nat :| FirstRule(norm, 0, i) && PathEdition(norm, 0).value == PATH_EDITIONS[i].1;
      forall j | 0 <= j < |PATH_EDITIONS| && Includes(norm, PATH_EDITIONS[j].0)
        ensures PATH_EDITIONS[i].1 <= PATH_EDITIONS[j].1
      {
        RulesByYear(i, j);
      }
    }
  }

  lemma StartsWithIff(s: string, t: string)
    ensures StartsWithAt(s, 0, t) <==> exists rest: string :: s == t + rest
  {
    if StartsWithAt(s, 0, t) { assert s == t + s[|t|..]; }
  }

  /** includes, in terms of concatenation. */
  lemma IncludesIff(s: string, t: string)
    ensures Includes(s, t) <==> exists a: string, b: string :: s == a + t + b
  {
    if Includes(s, t) {
      var i: nat :| i <= |s| && StartsWithAt(s, i, t);
      assert s == s[..i] + t + s[i + |t|..];
    }
    forall a: string, b: string | s == a + t + b ensures Includes(s, t) {
      assert StartsWithAt(s, |a|, t);
    }
  }

  lemma SlashesOf(a: string, b: string)
    ensures ForwardSlashes(a + b) == ForwardSlashes(a) + ForwardSlashes(b)
  {}

  /** Paths written with either kind of slash, and anything before and after them. */
  lemma AnnexBIsFive(before: string, after: string)
    ensures PathEdition(ForwardSlashes(before + "/annexB/" + after), 0) == Some(5)
    ensures PathEdition(ForwardSlashes(before + "\\annexB\\" + after), 0) == Some(5)
  {
    var norm := ForwardSlashes(before) + "/annexB/" + ForwardSlashes(after);
    SlashesOf(before, "/annexB/");
    SlashesOf(before, "\\annexB\\");
    SlashesOf(before + "/annexB/", after);
    SlashesOf(before + "\\annexB\\", after);
    assert ForwardSlashes("/annexB/") == ForwardSlashes("\\annexB\\") == "/annexB/";
    IncludesIff(norm, "/annexB/");
    assert Includes(norm, PATH_EDITIONS[0].0);
  }

  lemma {:induction false} PathEditionsAreEditions(norm: string, k: nat)
    requires k <= |PATH_EDITIONS|
    ensures PathEdition(norm, k).Some? ==> IsEdition(PathEdition(norm, k).value)
    decreases |PATH_EDITIONS| - k
  {
    if k < |PATH_EDITIONS| {
      PathEditionsAreEditions(norm, k + 1);
    }
  }

  /** The edition of a test, as its evidence is ranked: identifiers, then features, then the path, then what is left. */
  ghost predicate ClassifiedAs(edition: int, fm: Frontmatter, path: string, years: YearTable) {
    if fm.es5id != "" then edition == 5
    else if fm.es6id != "" then edition == 2015
    else if fm.features != [] then
      exists y :: IsLatestYear(y, fm.features, years) && edition == if y > 0 then y else CURRENT_DRAFT_EDITION
    else
      match PathEdition(ForwardSlashes(path), 0)
      case Some(year) => edition == year
      case None =>
        edition == if fm.esid != "" then UNCLASSIFIED_UNTAGGED else if fm.noFrontmatter then 5 else UNCLASSIFIED_LEGACY
  }

  lemma LatestYearIsUnique(x: int, y: int, features: seq<string>, years: YearTable)
    requires IsLatestYear(x, features, years) && IsLatestYear(y, features, years)
    ensures x == y
  {}

  /** The classification is a function of the evidence, and every year it gives has a bucket. */
  lemma ClassificationIsUnique(x: int, y: int, fm: Frontmatter, path: string, years: YearTable)
    requires ClassifiedAs(x, fm, path, years)
    ensures IsEdition(x) && x != PROPOSALS
    ensures ClassifiedAs(y, fm, path, years) ==> x == y
  {
    PathEditionsAreEditions(ForwardSlashes(path), 0);
    NoPathToProposals(ForwardSlashes(path), 0);
    forall p, q | IsLatestYear(p, fm.features, years) && IsLatestYear(q, fm.features, years) ensures p == q {
      LatestYearIsUnique(p, q, fm.features, years);
    }
  }

  lemma {:induction false} NoPathToProposals(norm: string, k: nat)
    requires k <= |PATH_EDITIONS|
    ensures PathEdition(norm, k) != Some(PROPOSALS)
    decreases |PATH_EDITIONS| - k
  {
    if k < |PATH_EDITIONS| { NoPathToProposals(norm, k + 1); }
  }

  /** classifyEdition. */
  method ClassifyEdition(fm: Frontmatter, path: string, years: YearTable) returns (edition: int)
    ensures ClassifiedAs(edition, fm, path, years)
  {
    if fm.es5id != "" { return 5; }
    if fm.es6id != "" { return 2015; }
    if |fm.features| > 0 {
      var latest := 0;
      for k := 0 to |fm.features|
        invariant IsLatestYear(latest, fm.features[..k], years)
      {
        var feature := fm.features[k];
        assert fm.features[..k + 1] == fm.features[..k] + [feature];
        if feature in years && years[feature] > latest {
          latest := years[feature];
        }
      }
      assert fm.features[..|fm.features|] == fm.features;
      if latest > 0 { return latest; }
      return CURRENT_DRAFT_EDITION;
    }
    var byPath := PathEdition(ForwardSlashes(path), 0);
    if byPath.Some? { return byPath.value; }
    if fm.esid != "" { return UNCLASSIFIED_UNTAGGED; }
    if fm.noFrontmatter { return 5; }
    return UNCLASSIFIED_LEGACY;
  }

  ghost function EditionOf(fm: Frontmatter, path: string, years: YearTable): (edition: int)
    ensures ClassifiedAs(edition, fm, path, years)
  {
    SomeEdition(fm, path, years);
    var edition :| ClassifiedAs(edition, fm, path, years);
    edition
  }

  lemma SomeEdition(fm: Frontmatter, path: string, years: YearTable)
    ensures exists edition :: ClassifiedAs(edition, fm, path, years)
  {
    var y := LatestYearExists(fm.features, years);
    var byFeature := if y > 0 then y else CURRENT_DRAFT_EDITION;
    var rest := if fm.esid != "" then UNCLASSIFIED_UNTAGGED else if fm.noFrontmatter then 5 else UNCLASSIFIED_LEGACY;
    var p := PathEdition(ForwardSlashes(path), 0);
    var edition :=
      if fm.es5id != "" then 5 else if fm.es6id != "" then 2015 else if fm.features != [] then byFeature
      else if p.Some? then p.value else rest;
    assert ClassifiedAs(edition, fm, path, years);
  }

  lemma {:induction false} LatestYearExists(features: seq<string>, years: YearTable) returns (y: int)
    ensures IsLatestYear(y, features, years)
    decreases |features|
  {
    y := 0;
    if features != [] {
      y := LatestYearExists(features[1..], years);
      assert features == [features[0]] + features[1..];
      if features[0] in years && years[features[0]] > y { y := years[features[0]]; }
    }
  }
}
