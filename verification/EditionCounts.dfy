/** Bucketing the results of a test run by edition, and by feature tag within an edition; main's deduplication before it
    and its reconciliation after it. */
module EditionCounts {
  import opened Options
  import opened EditionModel

  /** What a run needs besides its rows: the parsed frontmatter of a file, the year table, the definition of a pass, and
      the names that every JavaScript object inherits, such as toString. */
  datatype Env = Env(frontmatter: string -> Frontmatter, years: YearTable, hostFree: bool, inherited: set<string>)

  /** A counted record. */
  datatype Test = Test(file: string, edition: int, tags: seq<string>, status: StatusKey)

  // ----- Counting -----

  datatype Selection =
    | InEdition(year: int)
    | Tagged(year: int, anyOf: seq<string>)

  ghost predicate Shares(tags: seq<string>, anyOf: seq<string>) {
    exists tag :: tag in tags && tag in anyOf
  }

  ghost predicate Selected(t: Test, sel: Selection) {
    match sel
    case InEdition(year) => t.edition == year
    case Tagged(year, anyOf) => t.edition == year && year > 0 && Shares(t.tags, anyOf)
  }

  /** The plain count: how the selected tests came out. */
  ghost function Tally(tests: seq<Test>, sel: Selection): Counts {
    if tests == [] then ZERO else
      var c := Tally(tests[..|tests| - 1], sel);
      var t := tests[|tests| - 1];
      if Selected(t, sel) then c.Bump(t.status) else c
  }

  lemma TallyNext(tests: seq<Test>, t: Test, sel: Selection)
    ensures Tally(tests + [t], sel) == if Selected(t, sel) then Tally(tests, sel).Bump(t.status) else Tally(tests, sel)
  {
    assert (tests + [t])[..|tests|] == tests;
  }

  lemma {:induction false} TallyOfFewer(tests: seq<Test>, a: Selection, b: Selection)
    requires forall t :: t in tests && Selected(t, a) ==> Selected(t, b)
    ensures Tally(tests, a).AtMost(Tally(tests, b))
  {
    if tests != [] {
      var front, t := tests[..|tests| - 1], tests[|tests| - 1];
      assert tests == front + [t];
      TallyOfFewer(front, a, b);
    }
  }

  // ----- One row per file -----

  function Rank(status: string): nat {
    if status == "compile_error" || status == "compile_timeout" then 6
    else if status == "fail" then 5
    else if status == "timeout" || status == "crash" then 4
    else if status == "pass" then 3
    else if status == "skip" then 2
    else 1
  }

  /** What a row is entered under: its file, or a key of its own, here made from its position. */
  datatype Key = FileKey(file: string) | NoFile(position: nat)

  function KeyOf(row: Record, position: nat): Key {
    if row.file.Some? then FileKey(row.file.value) else NoFile(position)
  }

  /** The row that is kept under a key: a later row replaces an earlier one whose rank is no higher. */
  ghost function Kept(rows: seq<Record>, key: Key): Option<Record> {
    if rows == [] then None else
      var prior, row := Kept(rows[..|rows| - 1], key), rows[|rows| - 1];
      if KeyOf(row, |rows| - 1) != key then prior
      else if prior.None? || Rank(row.status) >= Rank(prior.value.status) then Some(row)
      else prior
  }

  /** No row of the file has a higher rank. */
  ghost predicate Worst(row: Record, rows: seq<Record>) {
    row in rows && forall other :: other in rows && other.file == row.file ==> Rank(other.status) <= Rank(row.status)
  }

  lemma KeptNext(rows: seq<Record>, row: Record, key: Key)
    ensures Kept(rows + [row], key) ==
      var prior := Kept(rows, key);
      if KeyOf(row, |rows|) != key then prior
      else if prior.None? || Rank(row.status) >= Rank(prior.value.status) then Some(row)
      else prior
  {
    assert (rows + [row])[..|rows|] == rows;
  }

  lemma {:induction false} KeptIsWorst(rows: seq<Record>, file: string)
    ensures Kept(rows, FileKey(file)).Some? <==> exists row :: row in rows && row.file == Some(file)
    ensures var kept := Kept(rows, FileKey(file));
      kept.Some? ==> kept.value.file == Some(file) && Worst(kept.value, rows)
  {
    if rows != [] {
      var front, row := rows[..|rows| - 1], rows[|rows| - 1];
      assert rows == front + [row];
      KeptIsWorst(front, file);
    }
  }

  /** Position i holds the row that is kept for a file, and after it comes no row of that file that ranks as high. */
  ghost predicate KeptAt(rows: seq<Record>, file: string, i: nat) {
    && i < |rows| && rows[i].file == Some(file) && Kept(rows, FileKey(file)) == Some(rows[i])
    && forall j :: i < j < |rows| && rows[j].file == Some(file) ==> Rank(rows[j].status) < Rank(rows[i].status)
  }

  lemma {:induction false} KeptPosition(rows: seq<Record>, file: string) returns (i: nat)
    requires exists row :: row in rows && row.file == Some(file)
    ensures KeptAt(rows, file, i)
  {
    var n := |rows| - 1;
    var front, row := rows[..n], rows[n];
    assert rows == front + [row];
    KeptNext(front, row, FileKey(file));
    KeptIsWorst(front, file);
    i := n;
    if exists other :: other in front && other.file == Some(file) {
      var k := KeptPosition(front, file);
      if row.file != Some(file) || Rank(row.status) < Rank(front[k].status) { i := k; }
    }
  }

  /** Some row of the file has one of the statuses. */
  ghost predicate Has(rows: seq<Record>, file: string, statuses: set<string>) {
    exists row :: row in rows && row.file == Some(file) && row.status in statuses
  }

  /** Two statuses between which the later row decides. */
  ghost predicate Tied(a: string, b: string) {
    && (a in {"compile_error", "compile_timeout"} <==> b in {"compile_error", "compile_timeout"})
    && (a == "fail" <==> b == "fail")
    && (a in {"timeout", "crash"} <==> b in {"timeout", "crash"})
    && (a == "pass" <==> b == "pass")
    && (a == "skip" <==> b == "skip")
  }

  lemma StatusOfRank(s: string)
    ensures Rank(s) >= 6 <==> s in {"compile_error", "compile_timeout"}
    ensures Rank(s) >= 5 <==> s in {"compile_error", "compile_timeout", "fail"}
    ensures Rank(s) >= 4 <==> s in {"compile_error", "compile_timeout", "fail", "timeout", "crash"}
    ensures Rank(s) >= 3 <==> s in {"compile_error", "compile_timeout", "fail", "timeout", "crash", "pass"}
    ensures Rank(s) >= 2 <==> s in {"compile_error", "compile_timeout", "fail", "timeout", "crash", "pass", "skip"}
  {}

  lemma TiedRank(a: string, b: string)
    requires Tied(a, b)
    ensures Rank(a) == Rank(b)
  {}

  lemma RanksOf(statuses: set<string>, rank: nat)
    requires
      || (statuses == {"compile_error", "compile_timeout"} && rank == 6)
      || (statuses == {"fail"} && rank == 5)
      || (statuses == {"timeout", "crash"} && rank == 4)
      || (statuses == {"pass"} && rank == 3)
      || (statuses == {"skip"} && rank == 2)
    ensures forall s :: s in statuses ==> Rank(s) == rank
  {}

  lemma HasRanked(rows: seq<Record>, row: Record, file: string, statuses: set<string>, rank: nat)
    requires row.file == Some(file) && Worst(row, rows) && forall s :: s in statuses ==> Rank(s) == rank
    ensures Has(rows, file, statuses) ==> rank <= Rank(row.status)
  {
  }

  /** Which row of a file is kept, told by the statuses: a compile error or a compile timeout if there is one; if there
      is none, a failure; then a timeout or a crash; then a pass; then a skip; and of those the last. */
  lemma KeptByStatus(rows: seq<Record>, file: string, kept: Record)
    requires Kept(rows, FileKey(file)) == Some(kept)
    ensures kept.file == Some(file)
    ensures Has(rows, file, {"compile_error", "compile_timeout"}) ==>
      kept.status in {"compile_error", "compile_timeout"}
    ensures Has(rows, file, {"fail"}) ==> kept.status in {"compile_error", "compile_timeout", "fail"}
    ensures Has(rows, file, {"timeout", "crash"}) ==>
      kept.status in {"compile_error", "compile_timeout", "fail", "timeout", "crash"}
    ensures Has(rows, file, {"pass"}) ==>
      kept.status in {"compile_error", "compile_timeout", "fail", "timeout", "crash", "pass"}
    ensures Has(rows, file, {"skip"}) ==>
      kept.status in {"compile_error", "compile_timeout", "fail", "timeout", "crash", "pass", "skip"}
    ensures LastOfItsKind(rows, file, kept)
  {
    KeptIsWorst(rows, file);
    KeptAtLeast(rows, file, kept, {"compile_error", "compile_timeout"}, 6);
    KeptAtLeast(rows, file, kept, {"fail"}, 5);
    KeptAtLeast(rows, file, kept, {"timeout", "crash"}, 4);
    KeptAtLeast(rows, file, kept, {"pass"}, 3);
    KeptAtLeast(rows, file, kept, {"skip"}, 2);
    StatusOfRank(kept.status);
    KeptIsLast(rows, file, kept);
  }

  lemma KeptAtLeast(rows: seq<Record>, file: string, kept: Record, statuses: set<string>, rank: nat)
    requires kept.file == Some(file) && Worst(kept, rows)
    requires
      || (statuses == {"compile_error", "compile_timeout"} && rank == 6)
      || (statuses == {"fail"} && rank == 5)
      || (statuses == {"timeout", "crash"} && rank == 4)
      || (statuses == {"pass"} && rank == 3)
      || (statuses == {"skip"} && rank == 2)
    ensures Has(rows, file, statuses) ==> rank <= Rank(kept.status)
  {
    RanksOf(statuses, rank);
    HasRanked(rows, kept, file, statuses, rank);
  }

  /** The row stands somewhere among the rows, and no later row of its file is tied with it. */
  ghost predicate LastOfItsKind(rows: seq<Record>, file: string, kept: Record) {
    exists i: nat ::
      && i < |rows| && rows[i] == kept
      && forall j :: i < j < |rows| && rows[j].file == Some(file) ==> !Tied(rows[j].status, kept.status)
  }

  lemma KeptIsLast(rows: seq<Record>, file: string, kept: Record)
    requires Kept(rows, FileKey(file)) == Some(kept)
    ensures LastOfItsKind(rows, file, kept)
  {
    KeptIsWorst(rows, file);
    var i := KeptPosition(rows, file);
    forall j | i < j < |rows| && rows[j].file == Some(file) ensures !Tied(rows[j].status, kept.status) {
      if Tied(rows[j].status, kept.status) { TiedRank(rows[j].status, kept.status); }
    }
  }

  /** A row without a file is always kept. */
  lemma {:induction false} RowsWithoutFileAreKept(rows: seq<Record>, i: nat)
    ensures Kept(rows, NoFile(i)) == if i < |rows| && rows[i].file.None? then Some(rows[i]) else None
  {
    if rows != [] {
      RowsWithoutFileAreKept(rows[..|rows| - 1], i);
    }
  }

  /** A worst row that comes last is kept. */
  lemma LastWorstIsKept(rows: seq<Record>, row: Record, file: string)
    requires Worst(row, rows + [row]) && row.file == Some(file)
    ensures Kept(rows + [row], FileKey(file)) == Some(row)
  {
    KeptNext(rows, row, FileKey(file));
    KeptIsWorst(rows, file);
  }

  /** With raw passes only the statuses without a rank of their own can disagree. */
  lemma RankDecidesRawOutcome(a: Record, b: Record)
    requires Rank(a.status) == Rank(b.status) > 1
    ensures ResolveStatusKey(a, false) == ResolveStatusKey(b, false)
  {}

  /** The keys, in the order in which they first appear. */
  ghost function Order(rows: seq<Record>): (keys: seq<Key>)
    ensures forall i, j :: 0 <= i < j < |keys| ==> keys[i] != keys[j]
    ensures forall key :: key in keys <==> Kept(rows, key).Some?
  {
    if rows == [] then [] else
      var front, key := Order(rows[..|rows| - 1]), KeyOf(rows[|rows| - 1], |rows| - 1);
      if key in front then front else front + [key]
  }

  /** A key stands where it was when it first appeared: later rows only add keys at the end. */
  lemma {:induction false} KeysKeepTheirPlaces(rows: seq<Record>, k: nat)
    requires k <= |rows|
    ensures |Order(rows[..k])| <= |Order(rows)| && Order(rows)[..|Order(rows[..k])|] == Order(rows[..k])
    decreases |rows|
  {
    if k < |rows| {
      var front := rows[..|rows| - 1];
      assert front[..k] == rows[..k];
      KeysKeepTheirPlaces(front, k);
    } else {
      assert rows[..k] == rows;
    }
  }

  /** The kept rows, one for each key. */
  ghost function Records(rows: seq<Record>): (records: seq<Record>) {
    RecordsFor(rows, Order(rows))
  }

  ghost function RecordsFor(rows: seq<Record>, keys: seq<Key>): (records: seq<Record>)
    requires forall key :: key in keys ==> Kept(rows, key).Some?
    ensures |records| == |keys| && forall i :: 0 <= i < |keys| ==> Kept(rows, keys[i]) == Some(records[i])
  {
    seq(|keys|, i requires 0 <= i < |keys| => Kept(rows, keys[i]).value)
  }

  /** Keeps one row under each key: the rows that Records lists. */
  method Deduplicate(rows: seq<Record>) returns (records: seq<Record>, dropped: nat)
    ensures records == Records(rows)
    ensures dropped == |rows| - |records|
  {
    dropped := 0;
    var byKey: map<Key, Record>, order: seq<Key> := map[], [];
    for k := 0 to |rows|
      invariant order == Order(rows[..k]) && IsIndex(byKey, rows[..k]) && dropped == k - |order|
    {
      var row := rows[k];
      var key := KeyOf(row, k);
      OrderNext(rows, k);
      IndexNext(byKey, rows, k);
      if key !in byKey {
        byKey := byKey[key := row];
        order := order + [key];
      } else {
        dropped := dropped + 1;
        if Rank(row.status) >= Rank(byKey[key].status) {
          byKey := byKey[key := row];
        }
      }
    }
    assert rows[..|rows|] == rows;
    forall i | 0 <= i < |order| ensures order[i] in byKey && Kept(rows, order[i]) == Some(byKey[order[i]]) {
      assert order[i] in order;
    }
    records := seq(|order|, i requires 0 <= i < |order| => byKey[order[i]]);
  }

  /** The kept rows by key. */
  ghost predicate IsIndex(byKey: map<Key, Record>, rows: seq<Record>) {
    forall key {:trigger Kept(rows, key)} :: Kept(rows, key) == if key in byKey then Some(byKey[key]) else None
  }

  lemma OrderNext(rows: seq<Record>, k: nat)
    requires k < |rows|
    ensures Order(rows[..k + 1]) ==
      var key := KeyOf(rows[k], k);
      if Kept(rows[..k], key).Some? then Order(rows[..k]) else Order(rows[..k]) + [key]
  {
    assert rows[..k + 1][..k] == rows[..k];
  }

  lemma IndexNext(byKey: map<Key, Record>, rows: seq<Record>, k: nat)
    requires k < |rows| && IsIndex(byKey, rows[..k])
    ensures var row, key := rows[k], KeyOf(rows[k], k);
      IsIndex(
        if key in byKey && Rank(row.status) < Rank(byKey[key].status) then byKey else byKey[key := row], rows[..k + 1])
  {
    assert rows[..k + 1] == rows[..k] + [rows[k]];
    var row, own := rows[k], KeyOf(rows[k], k);
    var r := if own in byKey && Rank(row.status) < Rank(byKey[own].status) then byKey else byKey[own := row];
    forall key: Key ensures Kept(rows[..k + 1], key) == if key in r then Some(r[key]) else None {
      KeptNext(rows[..k], row, key);
      assert Kept(rows[..k], key) == if key in byKey then Some(byKey[key]) else None;
    }
  }
}
