/** When the order of the result rows does not matter to what is counted. */
module EditionOrder {
  import opened Options
  import opened EditionModel
  import opened EditionCounts
  import opened EditionTables

  /** How a row is entered: as a proposal or by its evidence, and with which outcome; not at all without a file or
      status. */
  datatype Entry = Entry(proposal: bool, status: StatusKey)

  function EntryOf(row: Record, hostFree: bool): Option<Entry> {
    if Counted(row) then Some(Entry(Proposal(row), ResolveStatusKey(row, hostFree))) else None
  }

  /** All the worst rows of each file are entered alike. */
  ghost predicate EnteredAlike(rows: seq<Record>, hostFree: bool) {
    forall a, b :: Worst(a, rows) && Worst(b, rows) && a.file == b.file ==> EntryOf(a, hostFree) == EntryOf(b, hostFree)
  }

  /** What the rows come to: the counts of the tests they are deduplicated to. */
  ghost function CountsOf(env: Env, rows: seq<Record>, sel: Selection): Counts {
    Tally(Tests(env, Records(rows)), sel)
  }

  /** No other order of the rows changes the counts of an edition. */
  ghost predicate OrderIrrelevant(env: Env, rows: seq<Record>) {
    forall others: seq<Record>, year: int :: multiset(others) == multiset(rows) ==>
      CountsOf(env, others, InEdition(year)) == CountsOf(env, rows, InEdition(year))
  }

  // ----- The counts, file by file -----

  ghost function One(key: StatusKey): Counts { ZERO.Bump(key) }

  /** What a row that is kept adds. */
  ghost function Share(env: Env, row: Option<Record>, sel: Selection): Counts {
    if row.Some? && Counted(row.value) && Selected(TestOf(env, row.value), sel)
    then One(ResolveStatusKey(row.value, env.hostFree)) else ZERO
  }

  /** What each file adds. */
  ghost function Shares(env: Env, rows: seq<Record>, sel: Selection): (share: string -> Counts)
    ensures forall file :: share(file) == Share(env, Kept(rows, FileKey(file)), sel)
  {
    file => Share(env, Kept(rows, FileKey(file)), sel)
  }

  ghost function Sum(share: string -> Counts, files: seq<string>): Counts {
    if files == [] then ZERO else Sum(share, files[..|files| - 1]).Plus(share(files[|files| - 1]))
  }

  /** The files among some keys. */
  ghost function FilesOf(keys: seq<Key>): (files: seq<string>)
    ensures forall file :: file in files <==> FileKey(file) in keys
    ensures (forall i, j :: 0 <= i < j < |keys| ==> keys[i] != keys[j]) ==>
      forall i, j :: 0 <= i < j < |files| ==> files[i] != files[j]
  {
    if keys == [] then [] else
      var front, key := FilesOf(keys[..|keys| - 1]), keys[|keys| - 1];
      assert keys == keys[..|keys| - 1] + [key];
      if key.FileKey? then front + [key.file] else front
  }

  ghost function Files(rows: seq<Record>): seq<string> { FilesOf(Order(rows)) }

  lemma PlusBump(c: Counts, key: StatusKey)
    ensures c.Plus(One(key)) == c.Bump(key) && c.Plus(ZERO) == c
  {}

  lemma PlusMoves(a: Counts, b: Counts, c: Counts)
    ensures a.Plus(b).Plus(c) == a.Plus(c).Plus(b)
    ensures a.Plus(b) == a.Plus(c) ==> b == c
  {}

  lemma TestsOfMore(env: Env, records: seq<Record>, r: Record)
    ensures Tests(env, records + [r]) ==
      if Counted(r) then Tests(env, records) + [TestOf(env, r)] else Tests(env, records)
  {
    assert (records + [r])[..|records|] == records;
  }

  lemma RecordsOfMore(rows: seq<Record>, keys: seq<Key>, key: Key)
    requires forall k :: k in keys + [key] ==> Kept(rows, k).Some?
    ensures forall k :: k in keys ==> k in keys + [key]
    ensures key in keys + [key]
    ensures RecordsFor(rows, keys + [key]) == RecordsFor(rows, keys) + [Kept(rows, key).value]
  {
    forall k | k in keys ensures k in keys + [key] {}
    assert (keys + [key])[|keys|] == key;
  }

  lemma TallyOfMore(tests: seq<Test>, t: Test, sel: Selection)
    ensures Tally(tests + [t], sel) == Tally(tests, sel).Plus(if Selected(t, sel) then One(t.status) else ZERO)
  {
    TallyNext(tests, t, sel);
    PlusBump(Tally(tests, sel), t.status);
  }

  /** One more record adds its share. */
  lemma ShareIsAdded(env: Env, records: seq<Record>, r: Record, sel: Selection)
    ensures Tally(Tests(env, records + [r]), sel) == Tally(Tests(env, records), sel).Plus(Share(env, Some(r), sel))
  {
    TestsOfMore(env, records, r);
    if Counted(r) {
      TallyOfMore(Tests(env, records), TestOf(env, r), sel);
    } else {
      PlusBump(Tally(Tests(env, records), sel), Pass);
    }
  }

  ghost predicate AllKept(rows: seq<Record>, keys: seq<Key>) {
    forall key :: key in keys ==> Kept(rows, key).Some?
  }

  lemma {:induction false} TallyIsSum(env: Env, rows: seq<Record>, keys: seq<Key>, sel: Selection)
    requires AllKept(rows, keys)
    ensures Tally(Tests(env, RecordsFor(rows, keys)), sel) == Sum(Shares(env, rows, sel), FilesOf(keys))
    decreases |keys|
  {
    if keys == [] {
      NothingKept(env, rows, keys, sel);
    } else {
      var front, key := keys[..|keys| - 1], keys[|keys| - 1];
      assert keys == front + [key];
      TallyIsSum(env, rows, front, sel);
      SumOfMore(env, rows, keys, front, key, sel);
    }
  }

  lemma NothingKept(env: Env, rows: seq<Record>, keys: seq<Key>, sel: Selection)
    requires keys == []
    ensures Tally(Tests(env, RecordsFor(rows, keys)), sel) == ZERO == Sum(Shares(env, rows, sel), FilesOf(keys))
  {
    assert RecordsFor(rows, keys) == [];
  }

  lemma SumOfMore(env: Env, rows: seq<Record>, keys: seq<Key>, front: seq<Key>, key: Key, sel: Selection)
    requires keys == front + [key] && AllKept(rows, front) && AllKept(rows, keys)
    requires Tally(Tests(env, RecordsFor(rows, front)), sel) == Sum(Shares(env, rows, sel), FilesOf(front))
    ensures Tally(Tests(env, RecordsFor(rows, keys)), sel) == Sum(Shares(env, rows, sel), FilesOf(keys))
  {
    RecordsOfMore(rows, front, key);
    ShareIsAdded(env, RecordsFor(rows, front), Kept(rows, key).value, sel);
    LastShare(env, rows, front, key, sel);
  }

  lemma FilesNext(front: seq<Key>, key: Key)
    ensures FilesOf(front + [key]) == if key.FileKey? then FilesOf(front) + [key.file] else FilesOf(front)
  {
    assert (front + [key])[..|front|] == front;
  }

  /** Rows without a file are not counted. */
  lemma NoShareWithoutFile(env: Env, rows: seq<Record>, key: Key, sel: Selection)
    requires key.NoFile?
    ensures Share(env, Kept(rows, key), sel) == ZERO
  {
    RowsWithoutFileAreKept(rows, key.position);
  }

  lemma LastShare(env: Env, rows: seq<Record>, front: seq<Key>, key: Key, sel: Selection)
    ensures Sum(Shares(env, rows, sel), FilesOf(front + [key])) ==
      Sum(Shares(env, rows, sel), FilesOf(front)).Plus(Share(env, Kept(rows, key), sel))
  {
    FilesNext(front, key);
    if key.FileKey? {
      SumNext(Shares(env, rows, sel), FilesOf(front + [key]), FilesOf(front), key.file);
    } else {
      NoShareWithoutFile(env, rows, key, sel);
      PlusBump(Sum(Shares(env, rows, sel), FilesOf(front)), Pass);
    }
  }

  lemma CountsAreSum(env: Env, rows: seq<Record>, sel: Selection)
    ensures CountsOf(env, rows, sel) == Sum(Shares(env, rows, sel), Files(rows))
  {
    TallyIsSum(env, rows, Order(rows), sel);
  }

  // ----- Sums do not depend on the order -----

  lemma SumNext(share: string -> Counts, files: seq<string>, front: seq<string>, file: string)
    requires files == front + [file]
    ensures Sum(share, files) == Sum(share, front).Plus(share(file))
  {
    assert files[..|files| - 1] == front;
  }

  lemma TakeOutNext(files: seq<string>, i: nat)
    requires i < |files| - 1
    ensures var n := |files| - 1;
      files[..i] + files[i + 1..] == (files[..n][..i] + files[..n][i + 1..]) + [files[n]] &&
        files == files[..n] + [files[n]]
  {}

  lemma {:induction false} TakeOut(share: string -> Counts, files: seq<string>, i: nat)
    requires i < |files|
    ensures Sum(share, files) == Sum(share, files[..i] + files[i + 1..]).Plus(share(files[i]))
    decreases |files|
  {
    var n := |files| - 1;
    var front := files[..n];
    if i == n {
      assert files == front + [files[n]] && files[..i] + files[i + 1..] == front;
      SumNext(share, files, front, files[n]);
    } else {
      var rest := front[..i] + front[i + 1..];
      TakeOutNext(files, i);
      TakeOut(share, front, i);
      SumNext(share, files, front, files[n]);
      SumNext(share, files[..i] + files[i + 1..], rest, files[n]);
      PlusMoves(Sum(share, rest), share(files[i]), share(files[n]));
    }
  }

  lemma {:induction false} SameShares(a: string -> Counts, b: string -> Counts, files: seq<string>)
    requires forall f :: f in files ==> a(f) == b(f)
    ensures Sum(a, files) == Sum(b, files)
    decreases |files|
  {
    if files != [] {
      var front, file := files[..|files| - 1], files[|files| - 1];
      assert files == front + [file];
      SameShares(a, b, front);
      SumNext(a, files, front, file);
      SumNext(b, files, front, file);
    }
  }

  lemma {:induction false} SameFiles(share: string -> Counts, a: seq<string>, b: seq<string>)
    requires forall f :: f in a <==> f in b
    requires forall i, j :: 0 <= i < j < |a| ==> a[i] != a[j]
    requires forall i, j :: 0 <= i < j < |b| ==> b[i] != b[j]
    ensures Sum(share, a) == Sum(share, b)
    decreases |a|
  {
    if a == [] {
      NoneLeft(a, b);
    } else {
      var n := |a| - 1;
      assert a[n] in b;
      var i: nat :| i < |b| && b[i] == a[n];
      WithoutOne(a, b, i);
      SameFiles(share, a[..n], b[..i] + b[i + 1..]);
      assert a == a[..n] + [a[n]];
      SumNext(share, a, a[..n], a[n]);
      TakeOut(share, b, i);
    }
  }

  lemma NoneLeft(a: seq<string>, b: seq<string>)
    requires forall f :: f in a <==> f in b
    ensures a == [] ==> b == []
  {
    if b != [] { assert b[0] in b; }
  }

  lemma WithoutOne(a: seq<string>, b: seq<string>, i: nat)
    requires a != [] && i < |b| && b[i] == a[|a| - 1]
    requires forall f :: f in a <==> f in b
    requires forall i, j :: 0 <= i < j < |a| ==> a[i] != a[j]
    requires forall i, j :: 0 <= i < j < |b| ==> b[i] != b[j]
    ensures var rest := b[..i] + b[i + 1..];
      && (forall f :: f in a[..|a| - 1] <==> f in rest)
      && (forall i, j :: 0 <= i < j < |rest| ==> rest[i] != rest[j])
  {
    var n, rest := |a| - 1, b[..i] + b[i + 1..];
    forall f ensures f in rest <==> f in b && f != b[i] {
      if f in b && f != b[i] {
        var j :| 0 <= j < |b| && b[j] == f;
        assert rest[if j < i then j else j - 1] == f;
      }
      if f in rest {
        var j :| 0 <= j < |rest| && rest[j] == f;
        assert b[if j < i then j else j + 1] == f;
      }
    }
    forall f ensures f in a[..n] <==> f in a && f != a[n] {
      assert a == a[..n] + [a[n]];
    }
  }

  /** Two orders of the rows list the same files. */
  lemma FilesOfPermuted(rows: seq<Record>, others: seq<Record>)
    requires multiset(others) == multiset(rows)
    ensures forall f :: f in Files(rows) <==> f in Files(others)
  {
    forall f ensures f in Files(rows) <==> f in Files(others) {
      KeptIsWorst(rows, f);
      KeptIsWorst(others, f);
      forall row: Record ensures row in rows <==> row in others { SameRows(rows, others, row); }
    }
  }

  /** The counts of other rows, over the files of these. */
  lemma CountsOverFiles(env: Env, rows: seq<Record>, others: seq<Record>, sel: Selection)
    requires multiset(others) == multiset(rows)
    ensures CountsOf(env, others, sel) == Sum(Shares(env, others, sel), Files(rows))
  {
    CountsAreSum(env, others, sel);
    FilesOfPermuted(rows, others);
    SameFiles(Shares(env, others, sel), Files(others), Files(rows));
  }

  lemma SameRows(rows: seq<Record>, others: seq<Record>, row: Record)
    requires multiset(rows) == multiset(others)
    ensures row in rows <==> row in others
    ensures Worst(row, rows) <==> Worst(row, others)
  {
    forall r: Record ensures r in rows <==> r in others {
      assert r in rows <==> r in multiset(rows);
      assert r in others <==> r in multiset(others);
    }
  }

  // ----- Rows that are entered alike -----

  lemma SameEntrySameShare(env: Env, a: Record, b: Record, sel: Selection)
    requires a.file == b.file && EntryOf(a, env.hostFree) == EntryOf(b, env.hostFree)
    ensures Share(env, Some(a), sel) == Share(env, Some(b), sel)
  {
    if Counted(a) && !Proposal(a) {
      ClassificationIsUnique(
        TestOf(env, a).edition, TestOf(env, b).edition, env.frontmatter(FileOf(a)), FileOf(a), env.years);
    }
  }

  lemma AlikeFileShare(env: Env, rows: seq<Record>, others: seq<Record>, file: string, sel: Selection)
    requires multiset(others) == multiset(rows) && EnteredAlike(rows, env.hostFree)
    ensures Shares(env, rows, sel)(file) == Shares(env, others, sel)(file)
  {
    KeptIsWorst(rows, file);
    KeptIsWorst(others, file);
    forall row: Record ensures row in rows <==> row in others { SameRows(rows, others, row); }
    if Kept(rows, FileKey(file)).Some? {
      var a, b := Kept(rows, FileKey(file)).value, Kept(others, FileKey(file)).value;
      SameRows(rows, others, b);
      SameEntrySameShare(env, a, b, sel);
    }
  }

  /** If the worst rows of each file are entered alike, no order changes any count, by edition or by tag. */
  lemma AlikeCountsAlike(env: Env, rows: seq<Record>, others: seq<Record>, sel: Selection)
    requires multiset(others) == multiset(rows) && EnteredAlike(rows, env.hostFree)
    ensures CountsOf(env, others, sel) == CountsOf(env, rows, sel)
  {
    CountsAreSum(env, rows, sel);
    CountsOverFiles(env, rows, others, sel);
    forall f | f in Files(rows) ensures Shares(env, rows, sel)(f) == Shares(env, others, sel)(f) {
      AlikeFileShare(env, rows, others, f, sel);
    }
    SameShares(Shares(env, rows, sel), Shares(env, others, sel), Files(rows));
  }

  // ----- Rows that are not -----

  /** Taking out a row of another file keeps what is kept for this one. */
  lemma {:induction false} KeptWithout(rows: seq<Record>, i: nat, file: string)
    requires i < |rows| && rows[i].file != Some(file)
    ensures Kept(rows[..i] + rows[i + 1..], FileKey(file)) == Kept(rows, FileKey(file))
    decreases |rows|
  {
    var n, rest := |rows| - 1, rows[..i] + rows[i + 1..];
    if i == n {
      assert rest == rows[..n];
    } else {
      KeptWithout(rows[..n], i, file);
      assert rest[..n - 1] == rows[..n][..i] + rows[..n][i + 1..];
    }
  }

  /** The rows with one of them moved to the end; for other files nothing changes. */
  lemma MoveToEnd(rows: seq<Record>, row: Record, file: string) returns (front: seq<Record>)
    requires row in rows && row.file == Some(file)
    ensures multiset(front + [row]) == multiset(rows)
    ensures forall other :: other != file ==> Kept(front + [row], FileKey(other)) == Kept(rows, FileKey(other))
  {
    var i: nat :| i < |rows| && rows[i] == row;
    front := rows[..i] + rows[i + 1..];
    assert rows == rows[..i] + [row] + rows[i + 1..];
    forall other | other != file ensures Kept(front + [row], FileKey(other)) == Kept(rows, FileKey(other)) {
      KeptNext(front, row, FileKey(other));
      KeptWithout(rows, i, other);
    }
  }

  lemma NotInRest(files: seq<string>, i: nat)
    requires i < |files| && forall j, k :: 0 <= j < k < |files| ==> files[j] != files[k]
    ensures files[i] !in files[..i] + files[i + 1..]
  {}

  lemma OthersShareAlike(
    env: Env, rows: seq<Record>, others: seq<Record>, files: seq<string>, file: string, i: nat, sel: Selection)
    requires i < |files| && files[i] == file && forall j, k :: 0 <= j < k < |files| ==> files[j] != files[k]
    requires forall other :: other != file ==> Kept(others, FileKey(other)) == Kept(rows, FileKey(other))
    ensures var rest := files[..i] + files[i + 1..];
      Sum(Shares(env, others, sel), rest) == Sum(Shares(env, rows, sel), rest)
  {
    var rest := files[..i] + files[i + 1..];
    NotInRest(files, i);
    forall f | f in rest ensures Shares(env, others, sel)(f) == Shares(env, rows, sel)(f) {
      assert Kept(others, FileKey(f)) == Kept(rows, FileKey(f));
    }
    SameShares(Shares(env, others, sel), Shares(env, rows, sel), rest);
  }

  /** The counts when a worst row of a file comes last: those of the other files, and its share. */
  lemma CountsWithLast(env: Env, rows: seq<Record>, a: Record, file: string, i: nat, sel: Selection)
    returns (others: seq<Record>)
    requires Worst(a, rows) && a.file == Some(file) && i < |Files(rows)| && Files(rows)[i] == file
    ensures multiset(others) == multiset(rows)
    ensures CountsOf(env, others, sel) ==
      Sum(Shares(env, rows, sel), Files(rows)[..i] + Files(rows)[i + 1..]).Plus(Share(env, Some(a), sel))
  {
    var front := MoveToEnd(rows, a, file);
    others := front + [a];
    SameRows(rows, others, a);
    LastWorstIsKept(front, a, file);
    CountsOverFiles(env, rows, others, sel);
    TakeOut(Shares(env, others, sel), Files(rows), i);
    OthersShareAlike(env, rows, others, Files(rows), file, i, sel);
  }

  lemma IrrelevantSameShare(env: Env, rows: seq<Record>, a: Record, b: Record, year: int)
    requires OrderIrrelevant(env, rows) && Worst(a, rows) && Worst(b, rows) && a.file == b.file && a.file.Some?
    ensures Share(env, Some(a), InEdition(year)) == Share(env, Some(b), InEdition(year))
  {
    var file := a.file.value;
    KeptIsWorst(rows, file);
    assert file in Files(rows);
    var i: nat :| i < |Files(rows)| && Files(rows)[i] == file;
    var p := CountsWithLast(env, rows, a, file, i, InEdition(year));
    var q := CountsWithLast(env, rows, b, file, i, InEdition(year));
    assert CountsOf(env, p, InEdition(year)) == CountsOf(env, q, InEdition(year));
    PlusMoves(Sum(Shares(env, rows, InEdition(year)), Files(rows)[..i] + Files(rows)[i + 1..]),
              Share(env, Some(a), InEdition(year)), Share(env, Some(b), InEdition(year)));
  }

  lemma OneIsInjective(a: StatusKey, b: StatusKey)
    ensures One(a) != ZERO && (One(a) == One(b) ==> a == b)
  {}

  /** A row that is counted is entered like any row that adds the same to its edition. */
  lemma SameShareSameEntry(env: Env, a: Record, b: Record)
    requires Counted(a) && a.file == b.file
    requires var sel := InEdition(TestOf(env, a).edition); Share(env, Some(a), sel) == Share(env, Some(b), sel)
    ensures EntryOf(a, env.hostFree) == EntryOf(b, env.hostFree)
  {
    OneIsInjective(ResolveStatusKey(a, env.hostFree), ResolveStatusKey(b, env.hostFree));
  }

  /** No order of the rows changes the counts of an edition if and only if the worst rows of each file are entered
      alike. */
  lemma OrderIrrelevantIff(env: Env, rows: seq<Record>)
    ensures OrderIrrelevant(env, rows) <==> EnteredAlike(rows, env.hostFree)
  {
    if EnteredAlike(rows, env.hostFree) {
      forall others: seq<Record>, year: int | multiset(others) == multiset(rows)
        ensures CountsOf(env, others, InEdition(year)) == CountsOf(env, rows, InEdition(year))
      {
        AlikeCountsAlike(env, rows, others, InEdition(year));
      }
    }
    if OrderIrrelevant(env, rows) {
      forall a, b | Worst(a, rows) && Worst(b, rows) && a.file == b.file
        ensures EntryOf(a, env.hostFree) == EntryOf(b, env.hostFree)
      {
        if Counted(a) {
          IrrelevantSameShare(env, rows, a, b, TestOf(env, a).edition);
          SameShareSameEntry(env, a, b);
        } else if Counted(b) {
          IrrelevantSameShare(env, rows, b, a, TestOf(env, b).edition);
          SameShareSameEntry(env, b, a);
        }
      }
    }
  }

  // ----- Rows whose order matters -----

  /** If two rows of one file and rank are not entered alike, their order matters. */
  lemma OrderOfTwoMatters(env: Env, a: Record, b: Record)
    requires a.file == b.file && Rank(a.status) == Rank(b.status) &&
        EntryOf(a, env.hostFree) != EntryOf(b, env.hostFree)
    ensures !OrderIrrelevant(env, [a, b])
  {
    var rows := [a, b];
    assert Worst(a, rows) && Worst(b, rows);
    OrderIrrelevantIff(env, rows);
  }

  lemma Statuses(hostFree: bool, row: Record)
    requires row == Record(Some("test/a.js"), "pass", "", None, "")
    ensures Rank("ce") == Rank("error") == Rank("") == 1
    ensures EntryOf(row, hostFree) == Some(Entry(false, Pass))
    ensures hostFree ==> EntryOf(row.(leakClass := "env"), hostFree) == Some(Entry(false, Fail))
    ensures EntryOf(row.(status := "ce"), hostFree) == Some(Entry(false, Ce))
    ensures EntryOf(row.(status := "error"), hostFree) == Some(Entry(false, Fail))
    ensures EntryOf(row.(scope := "proposal"), hostFree) == Some(Entry(true, Pass))
    ensures EntryOf(row.(status := ""), hostFree) == None
  {
  }

  /** Pairs of rows of one file whose order matters: two host-free passes, one of which leaked a host import; ce and a
      status without a rank of its own; a pass in standard scope and one in proposal scope; no status and one without a
      rank of its own. */
  lemma OrderCanMatter(env: Env, row: Record, leaky: Record, ce: Record, error: Record, proposal: Record,
      missing: Record)
    requires row == Record(Some("test/a.js"), "pass", "", None, "")
    requires leaky == row.(leakClass := "env") && proposal == row.(scope := "proposal")
    requires ce == row.(status := "ce") && error == row.(status := "error") && missing == row.(status := "")
    ensures env.hostFree ==> !OrderIrrelevant(env, [row, leaky])
    ensures !OrderIrrelevant(env, [ce, error]) && !OrderIrrelevant(env, [row, proposal])
    ensures !OrderIrrelevant(env, [missing, error])
  {
    Statuses(env.hostFree, row);
    if env.hostFree { OrderOfTwoMatters(env, row, leaky); }
    OrderOfTwoMatters(env, ce, error);
    OrderOfTwoMatters(env, row, proposal);
    OrderOfTwoMatters(env, missing, error);
  }

  /** With raw passes, two counted rows of one rank of its own and one scope are entered alike. */
  lemma RankAndScopeDecide(a: Record, b: Record)
    requires Rank(a.status) == Rank(b.status) > 1 && a.file == b.file && Proposal(a) == Proposal(b)
    ensures EntryOf(a, false) == EntryOf(b, false)
  {
    RankDecidesRawOutcome(a, b);
  }
}
