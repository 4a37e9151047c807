/** Migrations running beside other writers, crashing and starting again, over the same two stores. */
module MigrationRuns {
  import opened ConfigMigration

  /** The stores and every migration process, each at its own phase. */
  datatype System = System(stores: Stores, migrations: seq<Phase>)

  datatype Event =
    | Write(stores: Stores)
    | Advance(i: nat, keys: set<string>, first: seq<DotenvFile>, values: seq<DotenvFile>)
    | Crash(i: nat)
    | CrashAfterCommit(i: nat)
    | Restart(i: nat)

  predicate Ended(p: Phase) { p.Finished? || p.Failed? }

  /** One step of one migration, reading whatever secret names and dotenv files it happens to find. */
  function Advanced(reg: Registry, s: Stores, p: Phase, keys: set<string>, first: seq<DotenvFile>,
      values: seq<DotenvFile>): (Stores, Phase) {
    match p
    case Started => (s, Check(reg, s.managed, keys, first))
    case Checked =>
      var file := Initialized(s.managed);
      (s.(managed := file), AfterOpen(reg, file))
    case Opened => (s, Prepare(reg, s.managed, keys, first, values))
    case Prepared(_, _, _) => WriteFile(reg, s, p)
    case FileWritten(_, _) => WriteSecrets(reg, s, p)
    case _ => (s, p)
  }

  function With(sys: System, i: nat, s: Stores, p: Phase): System
    requires i < |sys.migrations|
  {
    System(s, sys.migrations[i := p])
  }

  /** Another writer may replace both stores by anything; a migration moves by its own steps only. */
  function Next(reg: Registry, sys: System, e: Event): System {
    if e.Write? then sys.(stores := e.stores)
    else if e.i >= |sys.migrations| then sys
    else
      var p := sys.migrations[e.i];
      match e
      case Advance(i, keys, first, values) =>
        var (s, q) := Advanced(reg, sys.stores, p, keys, first, values);
        With(sys, i, s, q)
      case Crash(i) => if Ended(p) then sys else With(sys, i, sys.stores, Failed(IoError))
      case CrashAfterCommit(i) =>
        if Ended(p) then sys else With(sys, i, Advanced(reg, sys.stores, p, {}, [], []).0, Failed(IoError))
      case Restart(i) => if Ended(p) then With(sys, i, sys.stores, Started) else sys
  }

  function Run(reg: Registry, sys: System, events: seq<Event>): System {
    if events == [] then sys else Next(reg, Run(reg, sys, events[..|events| - 1]), events[|events| - 1])
  }

  function ValuesOf(file: ManagedFile): Values {
    if file.Document? then file.values else map[]
  }

  /** The changes a migration holds touch no key of the file it read. */
  ghost predicate FillsOnly(p: Phase) {
    p.Prepared? ==> forall k :: 0 <= k < |p.changes.managed| ==> p.changes.managed[k].key !in ValuesOf(p.revision)
  }

  ghost predicate Safe(sys: System) {
    forall i :: 0 <= i < |sys.migrations| ==> FillsOnly(sys.migrations[i])
  }

  /**
   Every value and secret of `a` is in `b` unchanged; a file that loads still loads; one that does
   not is left alone.
   */
  ghost predicate Keeps(reg: Registry, a: Stores, b: Stores) {
    && (forall x :: x in ValuesOf(a.managed) ==>
          x in ValuesOf(b.managed) && ValuesOf(b.managed)[x] == ValuesOf(a.managed)[x])
    && (forall x :: x in a.secrets ==> x in b.secrets && b.secrets[x] == a.secrets[x])
    && (if Load(reg, a.managed).Some? then Load(reg, b.managed).Some? else b.managed == a.managed)
  }

  // ----- What preparing produces -----

  lemma EntriesImportOnlyGaps(reg: Registry, v: set<string>, ks: set<string>, d: Sources)
    ensures var es := Entries(reg, v, ks, d);
            forall k :: 0 <= k < |es| && es[k].action == ImportManaged ==> es[k].key !in v
  {
    hide RawValue, FirstDefined, ValidManaged;
    var es := Entries(reg, v, ks, d);
    forall k | 0 <= k < |es| && es[k].action == ImportManaged
      ensures es[k].key !in v
    {
      assert es[k] == EntryOf(reg, reg.fields[k], v, ks, d);
    }
  }

  lemma {:induction false} ChangesTouchImports(reg: Registry, entries: seq<Entry>, d: Sources, v: set<string>)
    requires forall k :: 0 <= k < |entries| && entries[k].action == ImportManaged ==> entries[k].key !in v
    ensures ChangesOf(reg, entries, d).Some? ==>
              forall j :: 0 <= j < |ChangesOf(reg, entries, d).value.managed| ==>
                ChangesOf(reg, entries, d).value.managed[j].key !in v
    decreases |entries|
  {
    hide Require;
    if entries != [] {
      ChangesTouchImports(reg, entries[..|entries| - 1], d, v);
    }
  }

  lemma PreparedFillsOnly(reg: Registry, file: ManagedFile, keys: set<string>, first: seq<DotenvFile>,
      values: seq<DotenvFile>)
    ensures FillsOnly(Prepare(reg, file, keys, first, values))
  {
    hide Accepted, LoadDotenv, ChangesOf, Entries, AllValid;
    if Prepare(reg, file, keys, first, values).Prepared? {
      var v, d := Load(reg, file).value, LoadDotenv(first).value;
      EntriesImportOnlyGaps(reg, v.Keys, keys, d);
      ChangesTouchImports(reg, Entries(reg, v.Keys, keys, d), LoadDotenv(values).value, v.Keys);
    }
  }

  // ----- What the commits keep -----

  lemma {:induction false} ChangedKeeps(reg: Registry, values: Values, changes: seq<ManagedChange>, x: string)
    requires x in values && forall k :: 0 <= k < |changes| ==> changes[k].key != x
    ensures Changed(reg, values, changes).Some? ==>
              x in Changed(reg, values, changes).value && Changed(reg, values, changes).value[x] == values[x]
    decreases |changes|
  {
    hide Require, ValidManaged;
    if changes != [] {
      ChangedKeeps(reg, values, changes[..|changes| - 1], x);
    }
  }

  lemma FileCommitKeeps(reg: Registry, s: Stores, p: Phase)
    requires p.Prepared? && FillsOnly(p)
    ensures Keeps(reg, s, WriteFile(reg, s, p).0)
  {
    hide Changed, AllValid;
    forall x | x in ValuesOf(s.managed) && WriteFile(reg, s, p).0 != s
      ensures x in ValuesOf(WriteFile(reg, s, p).0.managed) && ValuesOf(WriteFile(reg, s, p).0.managed)[x] == ValuesOf(s.managed)[x]
    {
      ChangedKeeps(reg, ValuesOf(s.managed), p.changes.managed, x);
    }
  }

  lemma {:induction false} WithSecretsKeeps(secrets: map<string, string>, changes: seq<SecretChange>, x: string)
    requires x in secrets && forall k :: 0 <= k < |changes| ==> changes[k].key != x
    ensures x in WithSecrets(secrets, changes) && WithSecrets(secrets, changes)[x] == secrets[x]
    decreases |changes|
  {
    if changes != [] {
      WithSecretsKeeps(secrets, changes[..|changes| - 1], x);
    }
  }

  lemma SecretCommitKeeps(reg: Registry, s: Stores, p: Phase)
    requires p.FileWritten?
    ensures Keeps(reg, s, WriteSecrets(reg, s, p).0)
  {
    hide WithSecrets, Load, MayStoreAll;
    forall x | x in s.secrets && WriteSecrets(reg, s, p).0 != s
      ensures x in WriteSecrets(reg, s, p).0.secrets && WriteSecrets(reg, s, p).0.secrets[x] == s.secrets[x]
    {
      WithSecretsKeeps(s.secrets, p.changes.secrets, x);
    }
  }

  lemma OpeningKeeps(reg: Registry, s: Stores)
    ensures Keeps(reg, s, s) && Keeps(reg, s, s.(managed := Initialized(s.managed)))
  {
  }

  // ----- Main results -----

  /** Every migration keeps holding only changes that fill gaps of the file it read. */
  lemma NextIsSafe(reg: Registry, sys: System, e: Event)
    requires Safe(sys)
    ensures Safe(Next(reg, sys, e))
  {
    hide Check, Prepare, WriteFile, WriteSecrets, AfterOpen, FillsOnly;
    if !e.Write? && e.i < |sys.migrations| {
      AdvancedFillsOnly(reg, sys, e);
    }
  }

  lemma AdvancedFillsOnly(reg: Registry, sys: System, e: Event)
    requires !e.Write? && e.i < |sys.migrations|
    ensures FillsOnly(sys.migrations[e.i]) ==> FillsOnly(Next(reg, sys, e).migrations[e.i])
  {
    hide Prepare, UpdatedManaged, UpdatedSecrets, Load, Plan;
    if e.Advance? {
      PreparedFillsOnly(reg, sys.stores.managed, e.keys, e.first, e.values);
    }
  }

  /** No step of a migration changes or drops an existing value or secret, or spoils the file. */
  lemma MigrationStepKeepsEverything(reg: Registry, sys: System, e: Event)
    requires Safe(sys) && !e.Write?
    ensures Keeps(reg, sys.stores, Next(reg, sys, e).stores)
  {
    hide Check, Prepare, WriteFile, WriteSecrets, AllValid;
    if e.i < |sys.migrations| {
      var p := sys.migrations[e.i];
      assert FillsOnly(p);
      if p.Prepared? {
        FileCommitKeeps(reg, sys.stores, p);
      } else if p.FileWritten? {
        SecretCommitKeeps(reg, sys.stores, p);
      } else {
        OpeningKeeps(reg, sys.stores);
      }
    }
  }

  /** Over every run, a managed value that no other writer changes is never changed. */
  lemma {:induction false} ManagedValueSurvives(reg: Registry, sys: System, events: seq<Event>, key: string,
      value: TomlValue)
    requires Safe(sys) && key in ValuesOf(sys.stores.managed) && ValuesOf(sys.stores.managed)[key] == value
    requires forall k :: 0 <= k < |events| && events[k].Write? ==>
               key in ValuesOf(events[k].stores.managed) && ValuesOf(events[k].stores.managed)[key] == value
    ensures var end := Run(reg, sys, events);
            Safe(end) && key in ValuesOf(end.stores.managed) && ValuesOf(end.stores.managed)[key] == value
    decreases |events|
  {
    hide Safe, Load;
    if events != [] {
      var before, e := events[..|events| - 1], events[|events| - 1];
      ManagedValueSurvives(reg, sys, before, key, value);
      NextIsSafe(reg, Run(reg, sys, before), e);
      if !e.Write? {
        MigrationStepKeepsEverything(reg, Run(reg, sys, before), e);
      }
    }
  }

  /** Over every run, a secret that no other writer changes is never changed. */
  lemma {:induction false} SecretSurvives(reg: Registry, sys: System, events: seq<Event>, key: string, value: string)
    requires Safe(sys) && key in sys.stores.secrets && sys.stores.secrets[key] == value
    requires forall k :: 0 <= k < |events| && events[k].Write? ==>
               key in events[k].stores.secrets && events[k].stores.secrets[key] == value
    ensures var end := Run(reg, sys, events);
            Safe(end) && key in end.stores.secrets && end.stores.secrets[key] == value
    decreases |events|
  {
    hide Safe, Load;
    if events != [] {
      var before, e := events[..|events| - 1], events[|events| - 1];
      SecretSurvives(reg, sys, before, key, value);
      NextIsSafe(reg, Run(reg, sys, before), e);
      if !e.Write? {
        MigrationStepKeepsEverything(reg, Run(reg, sys, before), e);
      }
    }
  }

  // ----- The undisturbed migration is one of these runs -----

  /** The step in whose place a run is cut. */
  function StepsBefore(fault: Fault): nat {
    match fault
    case BeforeOpen => 1
    case BeforePrepare => 2
    case BeforeFile => 3
    case BeforeSecrets => 4
    case NoFault => 5
  }

  function Step(s: Stores, dotenvs: DotenvReads, k: nat): Event {
    Advance(0, s.secrets.Keys, if k == 0 then dotenvs.first else dotenvs.second, dotenvs.values)
  }

  function Steps(s: Stores, dotenvs: DotenvReads, n: nat): seq<Event> {
    if n == 0 then [] else Steps(s, dotenvs, n - 1) + [Step(s, dotenvs, n - 1)]
  }

  /** The stores and the migration's phase after its first steps. */
  ghost function After(reg: Registry, s: Stores, dotenvs: DotenvReads, n: nat): (Stores, Phase) {
    if n == 0 then (s, Started)
    else
      var (t, p) := After(reg, s, dotenvs, n - 1);
      Advanced(reg, t, p, s.secrets.Keys, if n == 1 then dotenvs.first else dotenvs.second, dotenvs.values)
  }

  lemma {:induction false} StepsLeadTo(reg: Registry, s: Stores, dotenvs: DotenvReads, n: nat)
    ensures Run(reg, System(s, [Started]), Steps(s, dotenvs, n)) == System(After(reg, s, dotenvs, n).0, [After(reg, s, dotenvs, n).1])
  {
    hide Advanced;
    if n > 0 {
      StepsLeadTo(reg, s, dotenvs, n - 1);
      var all := Steps(s, dotenvs, n);
      assert all[..|all| - 1] == Steps(s, dotenvs, n - 1);
    }
  }

  lemma AfterStep(reg: Registry, s: Stores, dotenvs: DotenvReads, n: nat)
    ensures After(reg, s, dotenvs, 0) == (s, Started)
    ensures After(reg, s, dotenvs, n + 1) ==
            Advanced(reg, After(reg, s, dotenvs, n).0, After(reg, s, dotenvs, n).1, s.secrets.Keys,
                     if n == 0 then dotenvs.first else dotenvs.second, dotenvs.values)
  {
  }

  lemma AfterIsApply(reg: Registry, s: Stores, dotenvs: DotenvReads, fault: Fault)
    ensures var (t, p) := After(reg, s, dotenvs, StepsBefore(fault));
            ApplyReading(reg, s, dotenvs, fault) == (t, if Ended(p) then p else Failed(IoError))
  {
    hide After, Check, Prepare, AfterOpen, Initialized, UpdatedManaged, UpdatedSecrets, Load;
    AfterStep(reg, s, dotenvs, 0);
    AfterStep(reg, s, dotenvs, 1);
    AfterStep(reg, s, dotenvs, 2);
    AfterStep(reg, s, dotenvs, 3);
    AfterStep(reg, s, dotenvs, 4);
    CheckEnds(reg, s.managed, s.secrets.Keys, dotenvs.first);
    OpenEnds(reg, Initialized(s.managed));
    PrepareEnds(reg, Initialized(s.managed), s.secrets.Keys, dotenvs.second, dotenvs.values);
    var a1, a2, a3 := After(reg, s, dotenvs, 1), After(reg, s, dotenvs, 2), After(reg, s, dotenvs, 3);
    var a4, a5 := After(reg, s, dotenvs, 4), After(reg, s, dotenvs, 5);
    if !a1.1.Checked? {
      assert a1 == a2 == a3 == a4 == a5;
    } else if !a2.1.Opened? {
      assert a2 == a3 == a4 == a5;
    } else if !a3.1.Prepared? {
      assert a3 == a4 == a5;
    } else if !a4.1.FileWritten? {
      assert a4 == a5;
    }
  }

  lemma CheckEnds(reg: Registry, file: ManagedFile, keys: set<string>, files: seq<DotenvFile>)
    ensures Check(reg, file, keys, files).Checked? || Check(reg, file, keys, files).Failed?
  {
  }

  lemma OpenEnds(reg: Registry, file: ManagedFile)
    ensures AfterOpen(reg, file).Opened? || AfterOpen(reg, file).Failed?
  {
  }

  lemma PrepareEnds(reg: Registry, file: ManagedFile, keys: set<string>, first: seq<DotenvFile>,
      values: seq<DotenvFile>)
    ensures Prepare(reg, file, keys, first, values).Prepared? || Prepare(reg, file, keys, first, values).Failed?
  {
  }

  /** A migration nobody disturbs is one run of the system: its steps up to the fault, then a crash. */
  lemma ApplyIsARun(reg: Registry, s: Stores, dotenvs: DotenvReads, fault: Fault)
    ensures var end := Run(reg, System(s, [Started]), Steps(s, dotenvs, StepsBefore(fault)) + [Crash(0)]);
            (end.stores, end.migrations) == (ApplyReading(reg, s, dotenvs, fault).0, [ApplyReading(reg, s, dotenvs, fault).1])
  {
    hide ApplyReading, After, Next, Steps;
    StepsLeadTo(reg, s, dotenvs, StepsBefore(fault));
    AfterIsApply(reg, s, dotenvs, fault);
    var (t, p) := After(reg, s, dotenvs, StepsBefore(fault));
    CrashEnds(reg, t, p);
    var steps := Steps(s, dotenvs, StepsBefore(fault));
    assert (steps + [Crash(0)])[..|steps|] == steps;
  }

  lemma CrashEnds(reg: Registry, s: Stores, p: Phase)
    ensures Next(reg, System(s, [p]), Crash(0)) == System(s, [if Ended(p) then p else Failed(IoError)])
  {
    hide Advanced;
    assert [p][0 := p] == [p];
  }
}
