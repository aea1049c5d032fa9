/**
 * Migrations across restarts. A run skips what is recorded, executes the rest in order and records
 * each file after executing it; it stops at the first failure. The directory is fixed.
 */
module Migrations {

  /** How the three fallible actions on one file end in one run. */
  datatype Luck = Unreadable | ExecFails | RecordFails | Fine

  /** `recorded` is the schema table; `executed` and `lost` count what happened to each file so far. */
  datatype Database = Database(recorded: set<string>, executed: seq<string>, lost: seq<string>)

  const NEW := Database({}, [], [])

  /** How the preparations of one run end; `Prepared` means that table and directory could be read. */
  datatype Setup = CreateFails | QueryFails | ReadDirFails | Prepared

  /** One start of the program: its preparations, and the luck of each file. */
  datatype Start = Start(setup: Setup, luck: string -> Luck)

  /** What `os.ReadDir` lists: names in ascending order. */
  datatype DirEntry = DirEntry(name: string, isDir: bool)

  predicate HasSuffix(name: string) {
    |name| >= 4 && name[|name| - 4..] == ".sql"
  }

  /** The regular files that end in `.sql`, in listing order. */
  function SqlFiles(entries: seq<DirEntry>): seq<string> {
    if entries == [] then []
    else (if !entries[0].isDir && HasSuffix(entries[0].name) then [entries[0].name] else []) + SqlFiles(entries[1..])
  }

  lemma SuffixIsExact(name: string)
    ensures HasSuffix(name) <==> exists stem: string :: name == stem + ".sql"
  {
    if HasSuffix(name) {
      assert name == name[..|name| - 4] + ".sql";
    }
  }

  /** Some entry that is no directory has that name, and it ends in ".sql". */
  ghost predicate Listed(entries: seq<DirEntry>, f: string) {
    && (exists stem: string :: f == stem + ".sql")
    && (exists i :: 0 <= i < |entries| && entries[i].name == f && !entries[i].isDir)
  }

  /** The files are exactly the names of the entries that are no directories and end in ".sql". */
  lemma {:induction false} SqlFilesAreExact(entries: seq<DirEntry>, f: string)
    ensures f in SqlFiles(entries) <==> Listed(entries, f)
  {
    if entries == [] {
    } else {
      var rest := entries[1..];
      SqlFilesAreExact(rest, f);
      SuffixIsExact(entries[0].name);
      assert forall i :: 0 < i < |entries| ==> entries[i] == rest[i - 1];
      if Listed(rest, f) {
        var i :| 0 <= i < |rest| && rest[i].name == f && !rest[i].isDir;
        assert entries[i + 1] == rest[i];
      }
    }
  }

  /** A run succeeds exactly when its preparations do and it leaves every file recorded. */
  lemma RunSucceedsExactly(entries: seq<DirEntry>, starts: seq<Start>, start: Start)
    requires NoRepeats(NamesOf(entries))
    ensures var files := SqlFiles(entries);
            var (db, ok) := Run(files, Starts(files, starts), start);
            ok <==> start.setup == Prepared && forall f :: f in files ==> f in db.recorded
  {
    var files := SqlFiles(entries);
    var before := Starts(files, starts);
    FilesAreDistinct(entries);
    var n := MigrationsResume(entries, starts);
    if start.setup == Prepared {
      SkipsRecorded(files, 0, n, before, start.luck);
      assert files[0..] == files;
      var m := ExtendsPrefix(files, n, n, before, start.luck);
      if m < |files| {
        PrefixGrows(files, m);
        assert files[m] in files;
      } else {
        assert files[..m] == files;
      }
    }
  }

  /** Any earlier and any later name are related, as in a list without repeats or in a sorted one. */
  ghost predicate Pairwise(related: (string, string) -> bool, names: seq<string>) {
    forall i, j :: 0 <= i < j < |names| ==> related(names[i], names[j])
  }

  ghost predicate NoRepeats(files: seq<string>) {
    forall i, j :: 0 <= i < j < |files| ==> files[i] != files[j]
  }

  function NamesOf(entries: seq<DirEntry>): seq<string> {
    seq(|entries|, i requires 0 <= i < |entries| => entries[i].name)
  }

  /** Every file is one of the names. */
  lemma {:induction false} FilesAreNames(entries: seq<DirEntry>)
    ensures forall f :: f in SqlFiles(entries) ==> f in NamesOf(entries)
  {
    if entries == [] {
    } else {
      FilesAreNames(entries[1..]);
      assert NamesOf(entries) == [entries[0].name] + NamesOf(entries[1..]);
    }
  }

  /**
   * The files inherit the order of the listing: if it is sorted by any relation, so are they, which is
   * why sorting them changes nothing.
   */
  lemma {:induction false} FilesKeepOrder(related: (string, string) -> bool, entries: seq<DirEntry>)
    requires Pairwise(related, NamesOf(entries))
    ensures Pairwise(related, SqlFiles(entries))
  {
    if entries == [] {
    } else {
      var names, rest := NamesOf(entries), NamesOf(entries[1..]);
      assert names == [entries[0].name] + rest;
      assert forall i :: 0 <= i < |rest| ==> rest[i] == names[i + 1];
      FilesKeepOrder(related, entries[1..]);
      FilesAreNames(entries[1..]);
      forall f | f in SqlFiles(entries[1..])
        ensures related(names[0], f)
      {
        var k :| 0 <= k < |rest| && rest[k] == f;
        assert names[k + 1] == f;
      }
      assert [] + SqlFiles(entries[1..]) == SqlFiles(entries[1..]);
      PairwiseCons(related, names[0], SqlFiles(entries[1..]));
    }
  }

  lemma PairwiseCons(related: (string, string) -> bool, name: string, names: seq<string>)
    requires Pairwise(related, names) && forall f :: f in names ==> related(name, f)
    ensures Pairwise(related, [name] + names)
  {
  }

  /** A directory holds no name twice, so no file is listed twice. */
  lemma FilesAreDistinct(entries: seq<DirEntry>)
    requires NoRepeats(NamesOf(entries))
    ensures NoRepeats(SqlFiles(entries))
  {
    var differ := (a: string, b: string) => a != b;
    FilesKeepOrder(differ, entries);
    assert forall i, j :: 0 <= i < j < |SqlFiles(entries)| ==> differ(SqlFiles(entries)[i], SqlFiles(entries)[j]);
  }

  /** One run over the files that are left; the applied set is the table as read at its start. */
  function RunFrom(files: seq<string>, applied: set<string>, db: Database, luck: string -> Luck): (Database, bool) {
    if files == [] then (db, true)
    else if files[0] in applied then RunFrom(files[1..], applied, db, luck)
    else match luck(files[0])
      case Unreadable => (db, false)
      case ExecFails => (db, false)
      case RecordFails => (db.(executed := db.executed + [files[0]], lost := db.lost + [files[0]]), false)
      case Fine =>
        RunFrom(files[1..], applied,
                db.(recorded := db.recorded + {files[0]}, executed := db.executed + [files[0]]), luck)
  }

  /** One run; the early errors return before anything is executed. */
  function Run(files: seq<string>, db: Database, start: Start): (Database, bool) {
    if start.setup != Prepared then (db, false) else RunFrom(files, db.recorded, db, start.luck)
  }

  /** Any number of starts of the program. */
  function Starts(files: seq<string>, starts: seq<Start>): Database {
    if starts == [] then NEW else Run(files, Starts(files, starts[..|starts| - 1]), starts[|starts| - 1]).0
  }

  lemma SqlFilesStep(entries: seq<DirEntry>, k: nat)
    requires k < |entries|
    ensures SqlFiles(entries[k..])
         == (if !entries[k].isDir && HasSuffix(entries[k].name) then [entries[k].name] else [])
            + SqlFiles(entries[k + 1..])
  {
    assert entries[k..][1..] == entries[k + 1..];
  }

  /** The loop over the directory entries. */
  method ListSqlFiles(entries: seq<DirEntry>) returns (files: seq<string>)
    ensures files == SqlFiles(entries)
  {
    files := [];
    for k := 0 to |entries|
      invariant SqlFiles(entries) == files + SqlFiles(entries[k..])
    {
      ghost var rest := SqlFiles(entries[k + 1..]);
      assert files + ([entries[k].name] + rest) == files + [entries[k].name] + rest;
      SqlFilesStep(entries, k);
      if !entries[k].isDir && HasSuffix(entries[k].name) {
        files := files + [entries[k].name];
      }
    }
  }

  /** The database object that the program opens at each start. */
  class Store {
    var db: Database

    constructor ()
      ensures db == NEW
    {
      db := NEW;
    }

    /** `RunMigrations`; sorting the names that ReadDir lists in order leaves them as they are. */
    method RunMigrations(entries: seq<DirEntry>, start: Start) returns (ok: bool)
      modifies this
      ensures (db, ok) == Run(SqlFiles(entries), old(db), start)
    {
      if start.setup == CreateFails || start.setup == QueryFails {
        return false;
      }
      var applied := db.recorded;
      if start.setup == ReadDirFails {
        return false;
      }
      var files := ListSqlFiles(entries);
      var i := 0;
      while i < |files|
        invariant 0 <= i <= |files|
        invariant RunFrom(files, applied, old(db), start.luck) == RunFrom(files[i..], applied, db, start.luck)
      {
        var file := files[i];
        assert files[i..][0] == file && files[i..][1..] == files[i + 1..];
        if file !in applied {
          var l := start.luck(file);
          if l == Unreadable || l == ExecFails {
            return false;
          }
          db := db.(executed := db.executed + [file]);
          if l == RecordFails {
            db := db.(lost := db.lost + [file]);
            return false;
          }
          db := db.(recorded := db.recorded + {file});
        }
        i := i + 1;
      }
      return true;
    }
  }

  // ---------- over restarts ----------

  function Names(files: seq<string>): set<string> {
    set f | f in files
  }

  /** How often `f` occurs. */
  function Times(s: seq<string>, f: string): nat {
    multiset(s)[f]
  }

  /** The first `n` files are recorded, and every file's executions are its record plus its lost records. */
  ghost predicate Resumable(files: seq<string>, db: Database, n: nat) {
    && n <= |files| && db.recorded == Names(files[..n])
    && forall f :: Times(db.executed, f) == (if f in db.recorded then 1 else 0) + Times(db.lost, f)
  }

  lemma PrefixGrows(files: seq<string>, n: nat)
    requires n < |files|
    ensures Names(files[..n + 1]) == Names(files[..n]) + {files[n]}
    ensures NoRepeats(files) ==> files[n] !in Names(files[..n])
  {
    assert files[..n + 1] == files[..n] + [files[n]];
  }

  /** Executing and recording the next file extends the prefix... */
  lemma RecordedNext(files: seq<string>, db: Database, n: nat)
    requires NoRepeats(files) && n < |files| && Resumable(files, db, n)
    ensures files[n] !in db.recorded
    ensures Resumable(files, db.(recorded := db.recorded + {files[n]}, executed := db.executed + [files[n]]), n + 1)
  {
    PrefixGrows(files, n);
  }

  /** ...and executing it without recording it leaves a lost record. */
  lemma LostNext(files: seq<string>, db: Database, n: nat)
    requires n < |files| && Resumable(files, db, n)
    ensures var after := db.(executed := db.executed + [files[n]], lost := db.lost + [files[n]]);
            Resumable(files, after, n)
  {
  }

  /** A run first skips the recorded prefix... */
  lemma {:induction false} SkipsRecorded(files: seq<string>, k: nat, n: nat, db: Database, luck: string -> Luck)
    requires k <= n <= |files|
    ensures RunFrom(files[k..], Names(files[..n]), db, luck) == RunFrom(files[n..], Names(files[..n]), db, luck)
    decreases n - k
  {
    if k == n {
    } else {
      assert files[k..][0] == files[k] && files[k..][1..] == files[k + 1..];
      assert files[..n][k] == files[k];
      SkipsRecorded(files, k + 1, n, db, luck);
    }
  }

  /** ...and then extends it file by file until it stops. */
  lemma {:induction false} ExtendsPrefix(files: seq<string>, applied: nat, n: nat, db: Database, luck: string -> Luck) returns (m: nat)
    requires NoRepeats(files) && applied <= n <= |files| && Resumable(files, db, n)
    ensures n <= m <= |files|
    ensures var (after, ok) := RunFrom(files[n..], Names(files[..applied]), db, luck);
            && Resumable(files, after, m)
            && (ok <==> m == |files|)
            && after.lost == db.lost + (if m < |files| && luck(files[m]) == RecordFails then [files[m]] else [])
    decreases |files| - n
  {
    m := n;
    if n == |files| {
    } else {
      var file := files[n];
      assert files[n..][0] == file && files[n..][1..] == files[n + 1..];
      PrefixGrows(files, n);
      assert file !in Names(files[..applied]);
      if luck(file) == Fine {
        RecordedNext(files, db, n);
        var next := db.(recorded := db.recorded + {file}, executed := db.executed + [file]);
        assert RunFrom(files[n..], Names(files[..applied]), db, luck) == RunFrom(files[n + 1..], Names(files[..applied]), next, luck);
        m := ExtendsPrefix(files, applied, n + 1, next, luck);
      } else if luck(file) == RecordFails {
        LostNext(files, db, n);
      }
    }
  }

  /**
   * Whatever fails at each start, the recorded set is always a prefix of the sorted files, and each
   * file has been executed once for its record and once for every time its record was lost.
   */
  lemma {:induction false} MigrationsResume(entries: seq<DirEntry>, starts: seq<Start>) returns (n: nat)
    requires NoRepeats(NamesOf(entries))
    ensures Resumable(SqlFiles(entries), Starts(SqlFiles(entries), starts), n)
    decreases |starts|
  {
    FilesAreDistinct(entries);
    if starts == [] {
      n := 0;
    } else {
      var files := SqlFiles(entries);
      var before, start := Starts(files, starts[..|starts| - 1]), starts[|starts| - 1];
      n := MigrationsResume(entries, starts[..|starts| - 1]);
      if start.setup == Prepared {
        SkipsRecorded(files, 0, n, before, start.luck);
        assert files[0..] == files;
        n := ExtendsPrefix(files, n, n, before, start.luck);
      }
    }
  }

  /** A file is executed twice only if recording it failed; with recording that works, never. */
  lemma NoSecondExecution(entries: seq<DirEntry>, starts: seq<Start>, f: string)
    requires NoRepeats(NamesOf(entries))
    ensures var db := Starts(SqlFiles(entries), starts);
            && (Times(db.lost, f) == 0 ==> Times(db.executed, f) <= 1)
            && (Times(db.executed, f) >= 2 ==> Times(db.lost, f) >= 1)
            && (f in db.recorded && Times(db.lost, f) > 0 ==> Times(db.executed, f) >= 2)
  {
    var n := MigrationsResume(entries, starts);
  }

  /** One start without failures completes the work of all earlier ones. */
  lemma CleanStartCompletes(entries: seq<DirEntry>, starts: seq<Start>)
    requires NoRepeats(NamesOf(entries)) && starts != [] && starts[|starts| - 1].setup == Prepared
    requires forall f :: f in SqlFiles(entries) ==> starts[|starts| - 1].luck(f) == Fine
    ensures Starts(SqlFiles(entries), starts).recorded == Names(SqlFiles(entries))
  {
    var files, start := SqlFiles(entries), starts[|starts| - 1];
    var before := Starts(files, starts[..|starts| - 1]);
    var k := MigrationsResume(entries, starts[..|starts| - 1]);
    FilesAreDistinct(entries);
    SkipsRecorded(files, 0, k, before, start.luck);
    assert files[0..] == files;
    CleanRun(files, k, k, before, start.luck);
  }

  lemma {:induction false} CleanRun(files: seq<string>, applied: nat, n: nat, db: Database, luck: string -> Luck)
    requires NoRepeats(files) && applied <= n <= |files| && db.recorded == Names(files[..n])
    requires forall f :: f in files ==> luck(f) == Fine
    ensures RunFrom(files[n..], Names(files[..applied]), db, luck).0.recorded == Names(files)
    decreases |files| - n
  {
    if n < |files| {
      assert files[n..][0] == files[n] && files[n..][1..] == files[n + 1..];
      PrefixGrows(files, n);
      CleanRun(files, applied, n + 1, db.(recorded := db.recorded + {files[n]}, executed := db.executed + [files[n]]), luck);
    } else {
      assert files[..n] == files;
    }
  }
}
