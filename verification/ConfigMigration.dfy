/** Importing dotenv settings into the managed configuration: inventory, preparation and the two commits. */
module ConfigMigration {
  import opened Wrappers
  import opened Characters

  // ----- The field registry -----

  datatype Sensitivity = Public | Secret | Restricted

  datatype Field = Field(key: string, envName: string, aliases: seq<string>, sensitivity: Sensitivity, webEditable: bool)

  datatype TomlValue = Text(text: string) | Flag(flag: bool) | Number(number: int) | TextList(items: seq<string>)

  type Values = map<string, TomlValue>

  /** The fields, and how their values are read from the environment and checked by type. */
  datatype Registry = Registry(fields: seq<Field>, parse: (Field, string) -> Option<TomlValue>, admits: (Field, TomlValue) -> bool)

  predicate IsBlank(s: string) { Trim(s) == "" }

  function EnvNames(f: Field): seq<string> { [f.envName] + f.aliases }

  function AllEnvNames(fields: seq<Field>): seq<string> {
    if fields == [] then [] else EnvNames(fields[0]) + AllEnvNames(fields[1..])
  }

  predicate Distinct(names: seq<string>) {
    forall i, j :: 0 <= i < j < |names| ==> names[i] != names[j]
  }

  predicate DistinctKeys(fields: seq<Field>) {
    forall i, j :: 0 <= i < j < |fields| ==> fields[i].key != fields[j].key
  }

  /** The registry's own acceptance test. */
  predicate Accepted(fields: seq<Field>) {
    && DistinctKeys(fields)
    && Distinct(AllEnvNames(fields))
    && forall n :: n in AllEnvNames(fields) ==> !IsBlank(n)
  }

  function Require(fields: seq<Field>, key: string): Option<Field> {
    if fields == [] then None
    else if fields[0].key == key then Some(fields[0])
    else Require(fields[1..], key)
  }

  predicate ValidManaged(reg: Registry, f: Field, v: TomlValue) {
    f.sensitivity == Public && f.webEditable && reg.admits(f, v)
  }

  lemma {:induction false} RequireFinds(fields: seq<Field>, k: nat)
    requires k < |fields| && DistinctKeys(fields)
    ensures Require(fields, fields[k].key) == Some(fields[k])
  {
    if k > 0 {
      RequireFinds(fields[1..], k - 1);
    }
  }

  // ----- The two stores -----

  /** The managed file. Its revision is a digest of its bytes, so the content itself stands for it. */
  datatype ManagedFile = Missing | Corrupt(bytes: nat) | Document(values: Values, layout: nat)

  /** The layout this program prints; a person may lay the same values out differently. */
  const PRETTY: nat := 0

  datatype Stores = Stores(managed: ManagedFile, secrets: map<string, string>)

  predicate AllValid(reg: Registry, values: Values) {
    forall k :: k in values ==> Require(reg.fields, k).Some? && ValidManaged(reg, Require(reg.fields, k).value, values[k])
  }

  function Load(reg: Registry, file: ManagedFile): Option<Values> {
    match file
    case Missing => Some(map[])
    case Corrupt(_) => None
    case Document(values, _) => if AllValid(reg, values) then Some(values) else None
  }

  datatype ManagedChange = SetValue(key: string, value: TomlValue)

  /** Stores a secret under a key that must still be free. */
  datatype SecretChange = StoreSecret(key: string, value: string)

  function Changed(reg: Registry, values: Values, changes: seq<ManagedChange>): Option<Values> {
    if changes == [] then Some(values)
    else
      var last := changes[|changes| - 1];
      match Changed(reg, values, changes[..|changes| - 1])
      case None => None
      case Some(vs) =>
        match Require(reg.fields, last.key)
        case None => None
        case Some(f) => if ValidManaged(reg, f, last.value) then Some(vs[last.key := last.value]) else None
  }

  /** Compare-and-swap on the managed file: the new content, if the revision still holds and every change is valid. */
  function UpdatedManaged(reg: Registry, file: ManagedFile, expected: ManagedFile,
      changes: seq<ManagedChange>): Option<ManagedFile> {
    if file != expected then None
    else match Load(reg, file)
      case None => None
      case Some(values) =>
        match Changed(reg, values, changes)
        case None => None
        case Some(vs) => if AllValid(reg, vs) then Some(Document(vs, PRETTY)) else None
  }

  const MASKED: seq<string> :=
    ["********", "\U{2022}\U{2022}\U{2022}\U{2022}\U{2022}\U{2022}\U{2022}\U{2022}", "<redacted>", "[redacted]", "__UNCHANGED__"]

  predicate MayStore(fields: seq<Field>, c: SecretChange) {
    match Require(fields, c.key)
    case None => false
    case Some(f) => f.sensitivity == Secret && f.webEditable && !IsBlank(c.value) && Trim(c.value) !in MASKED
  }

  predicate MayStoreAll(fields: seq<Field>, changes: seq<SecretChange>) {
    && (forall k :: 0 <= k < |changes| ==> MayStore(fields, changes[k]))
    && forall i, j :: 0 <= i < j < |changes| ==> changes[i].key != changes[j].key
  }

  function WithSecrets(secrets: map<string, string>, changes: seq<SecretChange>): map<string, string> {
    if changes == [] then secrets
    else WithSecrets(secrets, changes[..|changes| - 1])[changes[|changes| - 1].key := changes[|changes| - 1].value]
  }

  /** One transaction over all secrets: either every key was still free and all are stored, or nothing changes. */
  function UpdatedSecrets(fields: seq<Field>, secrets: map<string, string>,
      changes: seq<SecretChange>): Option<map<string, string>> {
    if MayStoreAll(fields, changes) && forall k :: 0 <= k < |changes| ==> changes[k].key !in secrets
    then Some(WithSecrets(secrets, changes))
    else None
  }

  // ----- Dotenv files -----

  datatype DotenvLine = Pair(name: string, value: string) | Malformed

  datatype DotenvFile = Absent | Unreadable | NotRegular | Lines(lines: seq<DotenvLine>)

  datatype Source = Source(value: string, file: nat)

  /** Variables with the value and file of their definition. */
  type Sources = map<string, Source>

  datatype MigrationError = InvalidInput | IoError

  function WithLines(sources: Sources, file: nat, lines: seq<DotenvLine>): Option<Sources> {
    if lines == [] then Some(sources)
    else
      match WithLines(sources, file, lines[..|lines| - 1])
      case None => None
      case Some(m) =>
        match lines[|lines| - 1]
        case Malformed => None
        case Pair(name, value) => Some(if name in m then m else m[name := Source(value, file)])
  }

  /** Every variable the files define, with the value and file of its first definition. */
  function LoadDotenv(files: seq<DotenvFile>): Result<Sources, MigrationError> {
    if files == [] then Ok(map[])
    else
      var i := |files| - 1;
      match LoadDotenv(files[..i])
      case Err(e) => Err(e)
      case Ok(m) =>
        match files[i]
        case Absent => Ok(m)
        case Unreadable => Err(IoError)
        case NotRegular => Err(InvalidInput)
        case Lines(lines) =>
          match WithLines(m, i, lines)
          case None => Err(InvalidInput)
          case Some(grown) => Ok(grown)
  }

  // ----- The inventory -----

  datatype Action = ImportManaged | ImportSecret | AlreadyManaged | KeepExternal | InvalidValue | NotPresent

  datatype Entry = Entry(key: string, source: Option<string>, action: Action)

  /** The first of the names that is defined. */
  function FirstDefined(names: seq<string>, dotenv: Sources): Option<string> {
    if names == [] then None
    else if names[0] in dotenv then Some(names[0])
    else FirstDefined(names[1..], dotenv)
  }

  lemma {:induction false} FirstDefinedIsDefined(names: seq<string>, dotenv: Sources)
    ensures FirstDefined(names, dotenv).Some? ==> FirstDefined(names, dotenv).value in dotenv
  {
    if names != [] && names[0] !in dotenv {
      FirstDefinedIsDefined(names[1..], dotenv);
    }
  }

  /** The raw value the dotenv files give a field. */
  function RawValue(f: Field, dotenv: Sources): Option<string> {
    match FirstDefined(EnvNames(f), dotenv)
    case None => None
    case Some(n) => if n in dotenv then Some(dotenv[n].value) else None
  }

  function ActionOf(reg: Registry, f: Field, managed: set<string>, secrets: set<string>, dotenv: Sources): Action {
    match RawValue(f, dotenv)
    case None => NotPresent
    case Some(raw) =>
      if f.sensitivity == Restricted then KeepExternal
      else if f.key in managed || f.key in secrets then AlreadyManaged
      else if f.sensitivity == Public then
        (match reg.parse(f, raw)
         case None => InvalidValue
         case Some(v) => if ValidManaged(reg, f, v) then ImportManaged else InvalidValue)
      else if IsBlank(raw) then InvalidValue
      else ImportSecret
  }

  function EntryOf(reg: Registry, f: Field, managed: set<string>, secrets: set<string>, dotenv: Sources): Entry {
    Entry(f.key, FirstDefined(EnvNames(f), dotenv), ActionOf(reg, f, managed, secrets, dotenv))
  }

  function Entries(reg: Registry, managed: set<string>, secrets: set<string>, dotenv: Sources): seq<Entry> {
    seq(|reg.fields|, k requires 0 <= k < |reg.fields| => EntryOf(reg, reg.fields[k], managed, secrets, dotenv))
  }

  /** The inventory of the fields against what the stores held when they were read. */
  function Plan(reg: Registry, file: ManagedFile, secrets: set<string>, files: seq<DotenvFile>):
      Result<seq<Entry>, MigrationError> {
    if !Accepted(reg.fields) then Err(InvalidInput)
    else match Load(reg, file)
      case None => Err(InvalidInput)
      case Some(values) =>
        match LoadDotenv(files)
        case Err(e) => Err(e)
        case Ok(dotenv) => Ok(Entries(reg, values.Keys, secrets, dotenv))
  }

  predicate HasInvalid(entries: seq<Entry>) {
    exists k :: 0 <= k < |entries| && entries[k].action == InvalidValue
  }

  // ----- From the inventory to changes -----

  datatype Changes = Changes(managed: seq<ManagedChange>, secrets: seq<SecretChange>)

  function WithEntry(reg: Registry, e: Entry, dotenv: Sources, c: Changes): Option<Changes> {
    if e.source.None? then Some(c)
    else if e.source.value !in dotenv then None
    else
      var raw := dotenv[e.source.value].value;
      match e.action
      case ImportManaged =>
        (match Require(reg.fields, e.key)
         case None => None
         case Some(f) =>
           match reg.parse(f, raw)
           case None => None
           case Some(v) => Some(c.(managed := c.managed + [SetValue(e.key, v)])))
      case ImportSecret => Some(c.(secrets := c.secrets + [StoreSecret(e.key, raw)]))
      case _ => Some(c)
  }

  function ChangesOf(reg: Registry, entries: seq<Entry>, dotenv: Sources): Option<Changes> {
    if entries == [] then Some(Changes([], []))
    else match ChangesOf(reg, entries[..|entries| - 1], dotenv)
      case None => None
      case Some(c) => WithEntry(reg, entries[|entries| - 1], dotenv, c)
  }

  // ----- One migration, step by step -----

  datatype Report = Report(managedImported: nat, secretsImported: nat, leftAlone: int)

  /** How far one migration has come, with what it holds in memory. */
  datatype Phase =
    | Started
    | Checked
    | Opened
    | Prepared(revision: ManagedFile, changes: Changes, total: nat)
    | FileWritten(changes: Changes, total: nat)
    | Finished(report: Report)
    | Failed(error: MigrationError)

  /** The first inventory: nothing is touched while any registered value is invalid. */
  function Check(reg: Registry, file: ManagedFile, secrets: set<string>, files: seq<DotenvFile>): Phase {
    match Plan(reg, file, secrets, files)
    case Err(e) => Failed(e)
    case Ok(entries) => if HasInvalid(entries) then Failed(InvalidInput) else Checked
  }

  /** Opening the configuration center creates an empty managed file where there is none. */
  function Initialized(file: ManagedFile): ManagedFile {
    if file == Missing then Document(map[], PRETTY) else file
  }

  function AfterOpen(reg: Registry, file: ManagedFile): Phase {
    if Load(reg, file).None? then Failed(InvalidInput) else Opened
  }

  /** The second inventory and the changes it calls for; the dotenv files are read again for the values. */
  function Prepare(reg: Registry, file: ManagedFile, secrets: set<string>, planFiles: seq<DotenvFile>,
      valueFiles: seq<DotenvFile>): Phase {
    match Plan(reg, file, secrets, planFiles)
    case Err(e) => Failed(e)
    case Ok(entries) =>
      match LoadDotenv(valueFiles)
      case Err(e) => Failed(e)
      case Ok(dotenv) =>
        match ChangesOf(reg, entries, dotenv)
        case None => Failed(InvalidInput)
        case Some(changes) => Prepared(file, changes, |entries|)
  }

  function WriteFile(reg: Registry, s: Stores, p: Phase): (Stores, Phase)
    requires p.Prepared?
  {
    if p.changes.managed == [] then (s, FileWritten(p.changes, p.total))
    else match UpdatedManaged(reg, s.managed, p.revision, p.changes.managed)
      case None => (s, Failed(InvalidInput))
      case Some(file) => (s.(managed := file), FileWritten(p.changes, p.total))
  }

  function ReportOf(p: Phase): Report
    requires p.FileWritten?
  {
    var m, n := |p.changes.managed|, |p.changes.secrets|;
    Report(m, n, p.total - m - n)
  }

  function WriteSecrets(reg: Registry, s: Stores, p: Phase): (Stores, Phase)
    requires p.FileWritten?
  {
    if p.changes.secrets == [] then (s, Finished(ReportOf(p)))
    else if Load(reg, s.managed).None? then (s, Failed(InvalidInput))
    else match UpdatedSecrets(reg.fields, s.secrets, p.changes.secrets)
      case None => (s, Failed(InvalidInput))
      case Some(secrets) => (s.(secrets := secrets), Finished(ReportOf(p)))
  }

  /** Where a run may be cut short by a crash or a failing file system or database. */
  datatype Fault = NoFault | BeforeOpen | BeforePrepare | BeforeFile | BeforeSecrets

  /** The two commits, the file first: the stores share no transaction. */
  function Commit(reg: Registry, s: Stores, p: Phase, fault: Fault): (Stores, Phase)
    requires p.Prepared?
  {
    if fault.BeforeFile? then (s, Failed(IoError))
    else
      var (s', q) := WriteFile(reg, s, p);
      if !q.FileWritten? then (s', q)
      else if fault.BeforeSecrets? then (s', Failed(IoError))
      else WriteSecrets(reg, s', q)
  }

  /** The dotenv files as each of the three readings of a run finds them. */
  datatype DotenvReads = DotenvReads(first: seq<DotenvFile>, second: seq<DotenvFile>, values: seq<DotenvFile>)

  /** One whole migration over stores that nobody else writes meanwhile. */
  function ApplyReading(reg: Registry, s: Stores, dotenvs: DotenvReads, fault: Fault): (Stores, Phase) {
    var checked := Check(reg, s.managed, s.secrets.Keys, dotenvs.first);
    if !checked.Checked? then (s, checked)
    else if fault.BeforeOpen? then (s, Failed(IoError))
    else
      var ready := s.(managed := Initialized(s.managed));
      var p := AfterOpen(reg, ready.managed);
      if !p.Opened? then (ready, p)
      else if fault.BeforePrepare? then (ready, Failed(IoError))
      else
        var prepared := Prepare(reg, ready.managed, ready.secrets.Keys, dotenvs.second, dotenvs.values);
        if !prepared.Prepared? then (ready, prepared)
        else Commit(reg, ready, prepared, fault)
  }

  /** A run during which the dotenv files do not change either. */
  function Apply(reg: Registry, s: Stores, files: seq<DotenvFile>, fault: Fault): (Stores, Phase) {
    ApplyReading(reg, s, DotenvReads(files, files, files), fault)
  }

  // ----- The imperative form -----

  method LoadDotenvFiles(files: seq<DotenvFile>) returns (r: Result<Sources, MigrationError>)
    ensures r == LoadDotenv(files)
  {
    var values: Sources := map[];
    for i := 0 to |files|
      invariant LoadDotenv(files[..i]) == Ok(values)
    {
      assert files[..i + 1][..i] == files[..i];
      match files[i] {
        case Absent =>
        case Unreadable =>
          StopsAt(files, i);
          return Err(IoError);
        case NotRegular =>
          StopsAt(files, i);
          return Err(InvalidInput);
        case Lines(lines) =>
          ghost var before := values;
          for j := 0 to |lines|
            invariant WithLines(before, i, lines[..j]) == Some(values)
          {
            assert lines[..j + 1][..j] == lines[..j];
            if lines[j].Malformed? {
              LinesStopAt(before, i, lines, j);
              StopsAt(files, i);
              return Err(InvalidInput);
            }
            if lines[j].name !in values {
              values := values[lines[j].name := Source(lines[j].value, i)];
            }
          }
          assert lines[..|lines|] == lines;
      }
    }
    assert files[..|files|] == files;
    return Ok(values);
  }

  /** The first file that cannot be taken decides the result. */
  lemma {:induction false} StopsAt(files: seq<DotenvFile>, i: nat)
    requires i < |files| && LoadDotenv(files[..i + 1]).Err?
    ensures LoadDotenv(files) == LoadDotenv(files[..i + 1])
    decreases |files|
  {
    if i + 1 == |files| {
      assert files[..i + 1] == files;
    } else {
      var rest := files[..|files| - 1];
      assert rest[..i + 1] == files[..i + 1];
      StopsAt(rest, i);
    }
  }

  lemma {:induction false} LinesStopAt(sources: Sources, file: nat, lines: seq<DotenvLine>, j: nat)
    requires j < |lines| && WithLines(sources, file, lines[..j + 1]).None?
    ensures WithLines(sources, file, lines).None?
    decreases |lines|
  {
    if j + 1 == |lines| {
      assert lines[..j + 1] == lines;
    } else {
      var rest := lines[..|lines| - 1];
      assert rest[..j + 1] == lines[..j + 1];
      LinesStopAt(sources, file, rest, j);
    }
  }

  method PlanConfigMigration(reg: Registry, file: ManagedFile, secrets: set<string>, files: seq<DotenvFile>)
    returns (r: Result<seq<Entry>, MigrationError>)
    ensures r == Plan(reg, file, secrets, files)
  {
    if !Accepted(reg.fields) {
      return Err(InvalidInput);
    }
    var loaded := Load(reg, file);
    if loaded.None? {
      return Err(InvalidInput);
    }
    var dotenv := LoadDotenvFiles(files);
    if dotenv.Err? {
      return Err(dotenv.error);
    }
    var entries: seq<Entry> := [];
    for i := 0 to |reg.fields|
      invariant |entries| == i
      invariant forall k :: 0 <= k < i ==> entries[k] == EntryOf(reg, reg.fields[k], loaded.value.Keys, secrets, dotenv.value)
    {
      entries := entries + [EntryOf(reg, reg.fields[i], loaded.value.Keys, secrets, dotenv.value)];
    }
    assert entries == Entries(reg, loaded.value.Keys, secrets, dotenv.value);
    return Ok(entries);
  }

  /** The loop that turns the second inventory into changes. */
  method CollectChanges(reg: Registry, entries: seq<Entry>, dotenv: Sources) returns (r: Option<Changes>)
    ensures r == ChangesOf(reg, entries, dotenv)
  {
    var managed: seq<ManagedChange>, secrets: seq<SecretChange> := [], [];
    for i := 0 to |entries|
      invariant ChangesOf(reg, entries[..i], dotenv) == Some(Changes(managed, secrets))
    {
      assert entries[..i + 1][..i] == entries[..i];
      var e := entries[i];
      if e.source.Some? {
        if e.source.value !in dotenv {
          ChangesStopAt(reg, entries, dotenv, i);
          return None;
        }
        var raw := dotenv[e.source.value].value;
        match e.action {
          case ImportManaged =>
            var field := Require(reg.fields, e.key);
            if field.None? || reg.parse(field.value, raw).None? {
              ChangesStopAt(reg, entries, dotenv, i);
              return None;
            }
            managed := managed + [SetValue(e.key, reg.parse(field.value, raw).value)];
          case ImportSecret =>
            secrets := secrets + [StoreSecret(e.key, raw)];
          case _ =>
        }
      }
    }
    assert entries[..|entries|] == entries;
    return Some(Changes(managed, secrets));
  }

  lemma {:induction false} ChangesStopAt(reg: Registry, entries: seq<Entry>, dotenv: Sources, i: nat)
    requires i < |entries| && ChangesOf(reg, entries[..i + 1], dotenv).None?
    ensures ChangesOf(reg, entries, dotenv).None?
    decreases |entries|
  {
    if i + 1 == |entries| {
      assert entries[..i + 1] == entries;
    } else {
      var rest := entries[..|entries| - 1];
      assert rest[..i + 1] == entries[..i + 1];
      ChangesStopAt(reg, rest, dotenv, i);
    }
  }

  /** The configuration center's two stores. */
  class ConfigStores {
    var managed: ManagedFile
    var secrets: map<string, string>

    function Contents(): Stores
      reads this
    {
      Stores(managed, secrets)
    }

    constructor (managed: ManagedFile, secrets: map<string, string>)
      ensures Contents() == Stores(managed, secrets)
    {
      this.managed := managed;
      this.secrets := secrets;
    }

    /** Replaces the file when its revision is still the expected one and every change is valid. */
    method UpdateManaged(reg: Registry, expected: ManagedFile, changes: seq<ManagedChange>) returns (ok: bool)
      modifies this`managed
      ensures ok <==> UpdatedManaged(reg, old(managed), expected, changes).Some?
      ensures managed == if ok then UpdatedManaged(reg, old(managed), expected, changes).value else old(managed)
    {
      if managed != expected {
        return false;
      }
      var current := Load(reg, managed);
      if current.None? {
        return false;
      }
      var values := current.value;
      for i := 0 to |changes|
        invariant Changed(reg, current.value, changes[..i]) == Some(values)
        invariant managed == old(managed)
      {
        assert changes[..i + 1][..i] == changes[..i];
        var field := Require(reg.fields, changes[i].key);
        if field.None? || !ValidManaged(reg, field.value, changes[i].value) {
          ChangedStopsAt(reg, current.value, changes, i);
          return false;
        }
        values := values[changes[i].key := changes[i].value];
      }
      assert changes[..|changes|] == changes;
      if !AllValid(reg, values) {
        return false;
      }
      managed := Document(values, PRETTY);
      return true;
    }

    /** Stores every secret in one transaction, or none. */
    method UpdateSecrets(reg: Registry, changes: seq<SecretChange>) returns (ok: bool)
      modifies this`secrets
      ensures ok <==> Load(reg, managed).Some? && UpdatedSecrets(reg.fields, old(secrets), changes).Some?
      ensures secrets == if ok then UpdatedSecrets(reg.fields, old(secrets), changes).value else old(secrets)
    {
      if !MayStoreAll(reg.fields, changes) || Load(reg, managed).None? {
        return false;
      }
      for i := 0 to |changes|
        invariant forall k :: 0 <= k < i ==> changes[k].key !in secrets
      {
        if changes[i].key in secrets {
          return false;
        }
      }
      var stored := secrets;
      for i := 0 to |changes|
        invariant stored == WithSecrets(secrets, changes[..i])
      {
        assert changes[..i + 1][..i] == changes[..i];
        stored := stored[changes[i].key := changes[i].value];
      }
      assert changes[..|changes|] == changes;
      secrets := stored;
      return true;
    }

    /** Commits the file, then the secrets, unless cut short. */
    method CommitChanges(reg: Registry, revision: ManagedFile, changes: Changes, total: nat, fault: Fault)
        returns (r: Result<Report, MigrationError>)
      modifies this
      ensures Contents() == Commit(reg, old(Contents()), Prepared(revision, changes, total), fault).0
      ensures match Commit(reg, old(Contents()), Prepared(revision, changes, total), fault).1
              case Finished(report) => r == Ok(report)
              case Failed(e) => r == Err(e)
              case _ => false
    {
      hide UpdatedManaged, UpdatedSecrets, Load;
      if fault.BeforeFile? {
        return Err(IoError);
      }
      if changes.managed != [] {
        var ok := UpdateManaged(reg, revision, changes.managed);
        if !ok {
          return Err(InvalidInput);
        }
      }
      if fault.BeforeSecrets? {
        return Err(IoError);
      }
      if changes.secrets != [] {
        var ok := UpdateSecrets(reg, changes.secrets);
        if !ok {
          return Err(InvalidInput);
        }
      }
      var m, n := |changes.managed|, |changes.secrets|;
      return Ok(Report(m, n, total - m - n));
    }

    /** The whole migration, cut short at the given point. */
    method ApplyConfigMigration(reg: Registry, dotenvs: DotenvReads, fault: Fault)
        returns (r: Result<Report, MigrationError>)
      modifies this
      ensures Contents() == ApplyReading(reg, old(Contents()), dotenvs, fault).0
      ensures match ApplyReading(reg, old(Contents()), dotenvs, fault).1
              case Finished(report) => r == Ok(report)
              case Failed(e) => r == Err(e)
              case _ => false
    {
      hide Accepted, LoadDotenv, ChangesOf, Commit, HasInvalid, Entries, Require, ValidManaged;
      var first := PlanConfigMigration(reg, managed, secrets.Keys, dotenvs.first);
      if first.Err? {
        return Err(first.error);
      }
      if HasInvalid(first.value) {
        return Err(InvalidInput);
      }
      if fault.BeforeOpen? {
        return Err(IoError);
      }
      if managed.Missing? {
        managed := Document(map[], PRETTY);
      }
      if fault.BeforePrepare? {
        return Err(IoError);
      }
      var plan := PlanConfigMigration(reg, managed, secrets.Keys, dotenvs.second);
      if plan.Err? {
        return Err(plan.error);
      }
      var dotenv := LoadDotenvFiles(dotenvs.values);
      if dotenv.Err? {
        return Err(dotenv.error);
      }
      var changes := CollectChanges(reg, plan.value, dotenv.value);
      if changes.None? {
        return Err(InvalidInput);
      }
      r := CommitChanges(reg, managed, changes.value, |plan.value|, fault);
    }
  }

  lemma {:induction false} ChangedStopsAt(reg: Registry, values: Values, changes: seq<ManagedChange>, i: nat)
    requires i < |changes| && Changed(reg, values, changes[..i + 1]).None?
    ensures Changed(reg, values, changes).None?
    decreases |changes|
  {
    if i + 1 == |changes| {
      assert changes[..i + 1] == changes;
    } else {
      var rest := changes[..|changes| - 1];
      assert rest[..i + 1] == changes[..i + 1];
      ChangedStopsAt(reg, values, rest, i);
    }
  }
}
