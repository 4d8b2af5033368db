/** The database migration runner: every `.sql` file of the schema
    directory, in sorted order, is run and recorded unless the migrations
    table already records it; the first failure stops the run. The SQL text
    itself is not modelled: which files fail is a parameter. */
module Migrate {
  import opened Js
  import opened Sql

  /** `readdirSync(dir).filter(f => f.endsWith('.sql'))`, in directory order. */
  function SqlOnly(dir: seq<string>): (files: seq<string>)
    ensures forall f :: f in files <==> f in dir && EndsWith(f, ".sql")
  {
    if dir == [] then []
    else (if EndsWith(dir[0], ".sql") then [dir[0]] else []) + SqlOnly(dir[1..])
  }

  /** `.sort()`: the directory's entries are distinct, so sorting them is
      listing them once each in increasing order. */
  function MigrationFiles(dir: seq<string>): seq<string> {
    SortDistinct(SqlOnly(dir))
  }

  /** The migration files are the directory's `.sql` files, in strictly
      increasing order. */
  lemma MigrationFilesSorted(dir: seq<string>)
    ensures StrictlySorted(MigrationFiles(dir))
    ensures forall f :: f in MigrationFiles(dir) <==> f in dir && EndsWith(f, ".sql")
  {
  }

  /** The files a run would execute, in order: those not yet recorded. */
  function Pending(files: seq<string>, done: set<string>): (p: seq<string>)
    ensures forall f :: f in p <==> f in files && f !in done
  {
    if files == [] then []
    else (if files[0] in done then [] else [files[0]]) + Pending(files[1..], done)
  }

  /** What a run did: the files it executed and recorded, and the file
      whose SQL threw, if any. */
  datatype RunResult = RunResult(ran: seq<string>, failed: Option<string>)

  /** The reference behaviour of the loop over `files`, given the recorded
      set (which each executed file joins at once) and the failing files. */
  function Run(files: seq<string>, done: set<string>, failing: set<string>): RunResult {
    if files == [] then RunResult([], None)
    else if files[0] in done then Run(files[1..], done, failing)
    else if files[0] in failing then RunResult([], Some(files[0]))
    else
      var rest := Run(files[1..], done + {files[0]}, failing);
      RunResult([files[0]] + rest.ran, rest.failed)
  }

  predicate Distinct(s: seq<string>) {
    forall i, j :: 0 <= i < j < |s| ==> s[i] != s[j]
  }

  lemma {:induction false} PendingGrown(files: seq<string>, done: set<string>, f: string)
    requires f !in files
    ensures Pending(files, done + {f}) == Pending(files, done)
  {
    if files != [] {
      PendingGrown(files[1..], done, f);
    }
  }

  lemma HeadNotInTail(files: seq<string>)
    requires files != [] && Distinct(files)
    ensures files[0] !in files[1..]
    ensures Distinct(files[1..])
  {
    forall j | 0 <= j < |files| - 1 ensures files[1..][j] != files[0] {
      assert files[1..][j] == files[j + 1];
    }
  }

  /** A run executes no failing file, and stops only at a failing one. */
  lemma {:induction false} RunAvoidsFailing(files: seq<string>, done: set<string>, failing: set<string>)
    ensures forall f :: f in Run(files, done, failing).ran ==> f !in failing
    ensures Run(files, done, failing).failed.Some? ==> Run(files, done, failing).failed.value in failing
  {
    if files != [] {
      if files[0] in done {
        RunAvoidsFailing(files[1..], done, failing);
      } else if files[0] !in failing {
        RunAvoidsFailing(files[1..], done + {files[0]}, failing);
      }
    }
  }

  /** On distinct files a run without failure executes every pending file,
      in order. */
  lemma {:induction false} RunSucceeds(files: seq<string>, done: set<string>, failing: set<string>)
    requires Distinct(files)
    requires Run(files, done, failing).failed.None?
    ensures Run(files, done, failing).ran == Pending(files, done)
  {
    if files != [] {
      HeadNotInTail(files);
      var f0 := files[0];
      if f0 in done {
        RunSucceeds(files[1..], done, failing);
      } else {
        RunSucceeds(files[1..], done + {f0}, failing);
        PendingGrown(files[1..], done, f0);
      }
    }
  }

  /** On distinct files a run that fails executes the pending files before
      the failing one, which is the next pending file: no later file runs. */
  lemma {:induction false} RunStops(files: seq<string>, done: set<string>, failing: set<string>)
    requires Distinct(files)
    requires Run(files, done, failing).failed.Some?
    ensures Run(files, done, failing).ran + [Run(files, done, failing).failed.value] <= Pending(files, done)
  {
    if files != [] {
      HeadNotInTail(files);
      var f0 := files[0];
      if f0 in done {
        RunStops(files[1..], done, failing);
      } else if f0 !in failing {
        var rest := Run(files[1..], done + {f0}, failing);
        RunStops(files[1..], done + {f0}, failing);
        PendingGrown(files[1..], done, f0);
        var x := rest.failed.value;
        var p' := Pending(files[1..], done);
        assert Pending(files, done) == [f0] + p';
        assert [f0] + rest.ran + [x] == [f0] + (rest.ran + [x]);
      }
    }
  }

  /** A run records no file twice, and no file recorded before. */
  lemma {:induction false} RunOnce(files: seq<string>, done: set<string>, failing: set<string>)
    requires Distinct(files)
    ensures Distinct(Run(files, done, failing).ran)
    ensures forall f :: f in Run(files, done, failing).ran ==> f in files && f !in done
  {
    var r := Run(files, done, failing);
    var p := Pending(files, done);
    PendingDistinct(files, done);
    if r.failed.Some? {
      RunStops(files, done, failing);
      assert r.ran == p[..|r.ran|];
      forall f | f in r.ran ensures f in p { }
    } else {
      RunSucceeds(files, done, failing);
    }
  }

  lemma {:induction false} PendingDistinct(files: seq<string>, done: set<string>)
    requires Distinct(files)
    ensures Distinct(Pending(files, done))
  {
    if files != [] {
      HeadNotInTail(files);
      PendingDistinct(files[1..], done);
    }
  }

  /** Files run in sorted order: what a run executes is increasing. */
  lemma {:induction false} PendingSorted(files: seq<string>, done: set<string>)
    requires StrictlySorted(files)
    ensures StrictlySorted(Pending(files, done))
  {
    if files != [] {
      PendingSorted(files[1..], done);
      var p := Pending(files, done);
      var t := Pending(files[1..], done);
      if files[0] !in done {
        forall j | 0 <= j < |t| ensures TextLess(files[0], t[j]) {
          assert t[j] in t;
          var k :| 0 <= k < |files[1..]| && files[1..][k] == t[j];
          assert files[k + 1] == t[j];
        }
      }
    }
  }

  /** The files a run executes are in increasing order, each an `.sql`
      file of the directory not recorded before. */
  lemma RunSorted(dir: seq<string>, done: set<string>, failing: set<string>)
    ensures StrictlySorted(Run(MigrationFiles(dir), done, failing).ran)
    ensures forall f :: f in Run(MigrationFiles(dir), done, failing).ran ==> f in dir && EndsWith(f, ".sql") && f !in done
  {
    var files := MigrationFiles(dir);
    var r := Run(files, done, failing);
    var p := Pending(files, done);
    MigrationFilesSorted(dir);
    SortedDistinct(files);
    PendingSorted(files, done);
    RunOnce(files, done, failing);
    if r.failed.Some? {
      RunStops(files, done, failing);
      assert r.ran == p[..|r.ran|];
    } else {
      RunSucceeds(files, done, failing);
    }
  }

  /** A sorted directory listing has distinct entries. */
  lemma SortedDistinct(files: seq<string>)
    requires StrictlySorted(files)
    ensures Distinct(files)
  {
    forall i, j | 0 <= i < j < |files| ensures files[i] != files[j] {
      if files[i] == files[j] {
        TextLessIrreflexive(files[i]);
      }
    }
  }

  /** After a run without failure, every `.sql` file of the directory is
      recorded, and a second run executes nothing. */
  lemma RunCompletes(dir: seq<string>, done: set<string>, failing: set<string>)
    requires Run(MigrationFiles(dir), done, failing).failed.None?
    ensures var ran := Run(MigrationFiles(dir), done, failing).ran;
      && (forall f :: f in dir && EndsWith(f, ".sql") ==> f in done || f in ran)
      && Run(MigrationFiles(dir), done + (set f | f in ran), failing) == RunResult([], None)
  {
    var files := MigrationFiles(dir);
    MigrationFilesSorted(dir);
    SortedDistinct(files);
    RunSucceeds(files, done, failing);
    var all := done + (set f | f in Run(files, done, failing).ran);
    assert forall f :: f in files ==> f in all;
    NothingPending(files, all, failing);
  }

  lemma {:induction false} NothingPending(files: seq<string>, done: set<string>, failing: set<string>)
    requires forall f :: f in files ==> f in done
    ensures Run(files, done, failing) == RunResult([], None)
  {
    if files != [] {
      NothingPending(files[1..], done, failing);
    }
  }

  /** One turn of the loop, on the remaining files: a recorded file is
      skipped, */
  lemma RunSkips(files: seq<string>, i: nat, done: set<string>, failing: set<string>)
    requires i < |files| && files[i] in done
    ensures Run(files[i..], done, failing) == Run(files[i + 1..], done, failing)
  {
    assert files[i..][0] == files[i] && files[i..][1..] == files[i + 1..];
  }

  /** a failing file stops the run, */
  lemma RunFails(files: seq<string>, i: nat, done: set<string>, failing: set<string>)
    requires i < |files| && files[i] !in done && files[i] in failing
    ensures Run(files[i..], done, failing) == RunResult([], Some(files[i]))
  {
    assert files[i..][0] == files[i];
  }

  /** and any other file is run and recorded. */
  lemma RunRecords(files: seq<string>, i: nat, done: set<string>, failing: set<string>)
    requires i < |files| && files[i] !in done && files[i] !in failing
    ensures Run(files[i..], done, failing) ==
      RunResult([files[i]] + Run(files[i + 1..], done + {files[i]}, failing).ran,
                Run(files[i + 1..], done + {files[i]}, failing).failed)
  {
    assert files[i..][0] == files[i] && files[i..][1..] == files[i + 1..];
  }

  /** The files already run, followed by what the rest of the run does. */
  function After(newly: seq<string>, rest: RunResult): RunResult {
    RunResult(newly + rest.ran, rest.failed)
  }

  lemma AfterOne(newly: seq<string>, file: string, rest: RunResult)
    ensures After(newly, RunResult([file] + rest.ran, rest.failed)) == After(newly + [file], rest)
  {
    assert newly + ([file] + rest.ran) == (newly + [file]) + rest.ran;
  }

  lemma RecordOne(recorded: seq<string>, done: set<string>, file: string)
    requires forall f :: f in done <==> f in recorded
    ensures forall f :: f in done + {file} <==> f in recorded + [file]
  {
  }

  /** The migrations table and the effect of the executed SQL. */
  class Migrator {
    /** The filename column of the migrations table, in insertion order. */
    var recorded: seq<string>
    /** The migration files whose SQL was executed, in execution order. */
    var executed: seq<string>

    function Done(): set<string>
      reads this
    {
      set f | f in recorded
    }

    constructor(recorded: seq<string>)
      ensures this.recorded == recorded && executed == []
    {
      this.recorded := recorded;
      executed := [];
    }

    /** runMigrations: the loop over the sorted `.sql` files. The SQL of a
        file is executed before the file is recorded, and the error of a
        failing file is rethrown (its name stands for it here). */
    method RunMigrations(dir: seq<string>, failing: set<string>) returns (error: Option<string>)
      modifies this
      ensures var r := Run(MigrationFiles(dir), old(Done()), failing);
        && recorded == old(recorded) + r.ran
        && executed == old(executed) + r.ran
        && error == r.failed
    {
      var files := MigrationFiles(dir);
      ghost var done0 := Done();
      ghost var rec0, ex0 := recorded, executed;
      ghost var newly: seq<string> := [];
      ghost var done := done0;
      ghost var total := Run(files, done0, failing);
      assert files[0..] == files;
      var i := 0;
      while i < |files|
        invariant 0 <= i <= |files|
        invariant recorded == rec0 + newly && executed == ex0 + newly
        invariant forall f :: f in done <==> f in recorded
        invariant total == After(newly, Run(files[i..], done, failing))
      {
        var file := files[i];
        if file in recorded {
          RunSkips(files, i, done, failing);
          i := i + 1;
          continue;
        }
        if file in failing {
          RunFails(files, i, done, failing);
          assert newly + [] == newly;
          return Some(file);
        }
        RunRecords(files, i, done, failing);
        RecordOne(recorded, done, file);
        AfterOne(newly, file, Run(files[i + 1..], done + {file}, failing));
        executed := executed + [file];
        recorded := recorded + [file];
        newly := newly + [file];
        done := done + {file};
        i := i + 1;
      }
      assert files[i..] == [];
      assert newly + [] == newly;
      error := None;
    }
  }
}
