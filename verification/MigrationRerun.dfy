/** What a whole migration leaves behind, and why repeating an interrupted one is enough. */
module MigrationRerun {
  import opened Wrappers
  import opened Characters
  import opened ConfigMigration

  // ----- The first file to define a name wins -----

  datatype Definition = Definition(name: string, source: Source)

  function LineDefinitions(file: nat, lines: seq<DotenvLine>): seq<Definition> {
    if lines == [] then []
    else
      LineDefinitions(file, lines[..|lines| - 1]) +
      (match lines[|lines| - 1]
       case Malformed => []
       case Pair(name, value) => [Definition(name, Source(value, file))])
  }

  /** Every definition, in file and line order. */
  function Definitions(files: seq<DotenvFile>): seq<Definition> {
    if files == [] then []
    else
      Definitions(files[..|files| - 1]) +
      (match files[|files| - 1]
       case Lines(lines) => LineDefinitions(|files| - 1, lines)
       case _ => [])
  }

  ghost predicate Readable(f: DotenvFile) {
    f.Absent? || (f.Lines? && forall k :: 0 <= k < |f.lines| ==> f.lines[k].Pair?)
  }

  /** The map holds the first definition of every defined name, and nothing else. */
  ghost predicate HoldsFirst(m: Sources, defs: seq<Definition>) {
    && (forall k :: 0 <= k < |defs| ==> defs[k].name in m)
    && (forall n :: n in m ==> exists k :: IsFirst(defs, n, k) && defs[k].source == m[n])
  }

  ghost predicate IsFirst(defs: seq<Definition>, name: string, k: int) {
    0 <= k < |defs| && defs[k].name == name && forall i :: 0 <= i < k ==> defs[i].name != name
  }

  lemma HoldsFirstGrows(m: Sources, defs: seq<Definition>, d: Definition)
    requires HoldsFirst(m, defs)
    ensures HoldsFirst(if d.name in m then m else m[d.name := d.source], defs + [d])
  {
    var grown := if d.name in m then m else m[d.name := d.source];
    var all := defs + [d];
    forall n | n in grown
      ensures exists k :: IsFirst(all, n, k) && all[k].source == grown[n]
    {
      if n in m {
        var k :| IsFirst(defs, n, k) && defs[k].source == m[n];
        assert IsFirst(all, n, k);
      } else {
        assert IsFirst(all, n, |defs|);
      }
    }
  }

  lemma {:induction false} LinesHoldFirst(m: Sources, defs: seq<Definition>, file: nat, lines: seq<DotenvLine>)
    requires HoldsFirst(m, defs)
    ensures WithLines(m, file, lines).Some? <==> forall k :: 0 <= k < |lines| ==> lines[k].Pair?
    ensures WithLines(m, file, lines).Some? ==> HoldsFirst(WithLines(m, file, lines).value, defs + LineDefinitions(file, lines))
    decreases |lines|
  {
    hide HoldsFirst;
    if lines == [] {
      assert defs + [] == defs;
    } else {
      var rest, last := lines[..|lines| - 1], lines[|lines| - 1];
      LinesHoldFirst(m, defs, file, rest);
      assert lines == rest + [last];
      if last.Pair? && WithLines(m, file, rest).Some? {
        var d := Definition(last.name, Source(last.value, file));
        HoldsFirstGrows(WithLines(m, file, rest).value, defs + LineDefinitions(file, rest), d);
        assert defs + LineDefinitions(file, lines) == defs + LineDefinitions(file, rest) + [d];
      }
    }
  }

  /** Loading succeeds exactly for readable files, and then yields the first definition of every name. */
  lemma {:induction false} LoadDotenvMeaning(files: seq<DotenvFile>)
    ensures LoadDotenv(files).Ok? <==> forall k :: 0 <= k < |files| ==> Readable(files[k])
    ensures LoadDotenv(files).Ok? ==> HoldsFirst(LoadDotenv(files).value, Definitions(files))
    decreases |files|
  {
    hide HoldsFirst;
    if files == [] {
      assert HoldsFirst(map[], []) by { NothingIsHeld(); }
    } else {
      var rest, last := files[..|files| - 1], files[|files| - 1];
      LoadDotenvMeaning(rest);
      assert files == rest + [last];
      if last.Lines? && LoadDotenv(rest).Ok? {
        LinesHoldFirst(LoadDotenv(rest).value, Definitions(rest), |files| - 1, last.lines);
      }
      assert Definitions(rest) + [] == Definitions(rest);
    }
  }

  lemma NothingIsHeld()
    ensures HoldsFirst(map[], [])
  {
  }

  // ----- What the loops collect -----

  ghost function Act(reg: Registry, v: set<string>, ks: set<string>, d: Sources, k: nat): Action
    requires k < |reg.fields|
  {
    ActionOf(reg, reg.fields[k], v, ks, d)
  }

  ghost function Raw(reg: Registry, d: Sources, k: nat): string
    requires k < |reg.fields|
  {
    var r := RawValue(reg.fields[k], d);
    if r.Some? then r.value else ""
  }

  /** The value the registry reads from a field's dotenv text. */
  ghost function ReadValue(reg: Registry, d: Sources, k: nat): TomlValue
    requires k < |reg.fields|
  {
    var v := reg.parse(reg.fields[k], Raw(reg, d, k));
    if v.Some? then v.value else Text("")
  }

  ghost function ManagedUpTo(reg: Registry, v: set<string>, ks: set<string>, d: Sources, n: nat): seq<ManagedChange>
    requires n <= |reg.fields|
  {
    if n == 0 then []
    else ManagedUpTo(reg, v, ks, d, n - 1) +
         if Act(reg, v, ks, d, n - 1) == ImportManaged then [SetValue(reg.fields[n - 1].key, ReadValue(reg, d, n - 1))] else []
  }

  ghost function SecretsUpTo(reg: Registry, v: set<string>, ks: set<string>, d: Sources, n: nat): seq<SecretChange>
    requires n <= |reg.fields|
  {
    if n == 0 then []
    else SecretsUpTo(reg, v, ks, d, n - 1) +
         if Act(reg, v, ks, d, n - 1) == ImportSecret then [StoreSecret(reg.fields[n - 1].key, Raw(reg, d, n - 1))] else []
  }

  lemma ActFacts(reg: Registry, v: set<string>, ks: set<string>, d: Sources, k: nat)
    requires k < |reg.fields|
    ensures var f := reg.fields[k]; var a := Act(reg, v, ks, d, k); var name := FirstDefined(EnvNames(f), d);
            && (a != NotPresent ==> name.Some? && name.value in d && d[name.value].value == Raw(reg, d, k))
            && (a == ImportManaged ==>
                  && f.sensitivity == Public && f.key !in v && f.key !in ks
                  && reg.parse(f, Raw(reg, d, k)) == Some(ReadValue(reg, d, k)) && ValidManaged(reg, f, ReadValue(reg, d, k)))
            && (a == ImportSecret ==>
                  f.sensitivity == Secret && f.key !in v && f.key !in ks && !IsBlank(Raw(reg, d, k)))
            && (a == NotPresent ==> name.None?)
  {
    FirstDefinedIsDefined(EnvNames(reg.fields[k]), d);
  }

  lemma {:induction false} ChangesAre(reg: Registry, v: set<string>, ks: set<string>, d: Sources, n: nat)
    requires n <= |reg.fields| && DistinctKeys(reg.fields)
    ensures ChangesOf(reg, Entries(reg, v, ks, d)[..n], d) ==
            Some(Changes(ManagedUpTo(reg, v, ks, d, n), SecretsUpTo(reg, v, ks, d, n)))
  {
    hide ActionOf, RawValue, FirstDefined, DistinctKeys, Require, ReadValue, Raw;
    if n > 0 {
      var es := Entries(reg, v, ks, d);
      assert es[..n][..n - 1] == es[..n - 1];
      assert es[..n][n - 1] == EntryOf(reg, reg.fields[n - 1], v, ks, d);
      assert ManagedUpTo(reg, v, ks, d, n - 1) + [] == ManagedUpTo(reg, v, ks, d, n - 1);
      assert SecretsUpTo(reg, v, ks, d, n - 1) + [] == SecretsUpTo(reg, v, ks, d, n - 1);
      ChangesAre(reg, v, ks, d, n - 1);
      ActFacts(reg, v, ks, d, n - 1);
      RequireFinds(reg.fields, n - 1);
    }
  }

  // ----- What the file commit writes -----

  ghost function Filled(reg: Registry, values: Values, ks: set<string>, d: Sources, n: nat): Values
    requires n <= |reg.fields|
  {
    if n == 0 then values
    else
      var before := Filled(reg, values, ks, d, n - 1);
      if Act(reg, values.Keys, ks, d, n - 1) == ImportManaged
      then before[reg.fields[n - 1].key := ReadValue(reg, d, n - 1)]
      else before
  }

  lemma OneMoreIsValid(reg: Registry, values: Values, k: nat, v: TomlValue)
    requires AllValid(reg, values) && k < |reg.fields| && ValidManaged(reg, reg.fields[k], v)
    requires Require(reg.fields, reg.fields[k].key) == Some(reg.fields[k])
    ensures AllValid(reg, values[reg.fields[k].key := v])
  {
    hide Require, ValidManaged;
  }

  lemma {:induction false} ChangedIsFilled(reg: Registry, values: Values, ks: set<string>, d: Sources, n: nat)
    requires n <= |reg.fields| && DistinctKeys(reg.fields) && AllValid(reg, values)
    ensures Changed(reg, values, ManagedUpTo(reg, values.Keys, ks, d, n)) == Some(Filled(reg, values, ks, d, n))
    ensures AllValid(reg, Filled(reg, values, ks, d, n))
  {
    hide Act, DistinctKeys, Require, ReadValue, ValidManaged, AllValid;
    if n > 0 {
      ChangedIsFilled(reg, values, ks, d, n - 1);
      ActFacts(reg, values.Keys, ks, d, n - 1);
      RequireFinds(reg.fields, n - 1);
      if Act(reg, values.Keys, ks, d, n - 1) == ImportManaged {
        OneMoreIsValid(reg, Filled(reg, values, ks, d, n - 1), n - 1, ReadValue(reg, d, n - 1));
      }
      var all, rest := ManagedUpTo(reg, values.Keys, ks, d, n), ManagedUpTo(reg, values.Keys, ks, d, n - 1);
      if Act(reg, values.Keys, ks, d, n - 1) == ImportManaged {
        assert all[..|all| - 1] == rest;
      } else {
        assert all == rest;
      }
    }
  }

  /**
   Exactly the gaps are filled: old values stay, and a new key is that of a field to import, with
   the value read for it.
   */
  ghost predicate FillsGaps(reg: Registry, values: Values, filled: Values, ks: set<string>, d: Sources, n: nat)
    requires n <= |reg.fields|
  {
    && (forall x :: x in values ==> x in filled && filled[x] == values[x])
    && (forall x :: x in filled && x !in values ==>
          exists k :: 0 <= k < n && reg.fields[k].key == x && Act(reg, values.Keys, ks, d, k) == ImportManaged)
    && (forall k :: 0 <= k < n && Act(reg, values.Keys, ks, d, k) == ImportManaged ==>
          reg.fields[k].key in filled && filled[reg.fields[k].key] == ReadValue(reg, d, k))
  }

  lemma FillOneGap(reg: Registry, values: Values, filled: Values, ks: set<string>, d: Sources, n: nat)
    requires n < |reg.fields| && DistinctKeys(reg.fields) && FillsGaps(reg, values, filled, ks, d, n)
    requires Act(reg, values.Keys, ks, d, n) == ImportManaged && reg.fields[n].key !in values
    ensures FillsGaps(reg, values, filled[reg.fields[n].key := ReadValue(reg, d, n)], ks, d, n + 1)
  {
    hide Act, ReadValue;
    var after := filled[reg.fields[n].key := ReadValue(reg, d, n)];
    forall x | x in after && x !in values
      ensures exists k :: 0 <= k < n + 1 && reg.fields[k].key == x && Act(reg, values.Keys, ks, d, k) == ImportManaged
    {
      if x == reg.fields[n].key {
        assert Act(reg, values.Keys, ks, d, n) == ImportManaged;
      } else {
        assert x in filled;
      }
    }
  }

  lemma {:induction false} FilledFillsGaps(reg: Registry, values: Values, ks: set<string>, d: Sources, n: nat)
    requires n <= |reg.fields| && DistinctKeys(reg.fields)
    ensures FillsGaps(reg, values, Filled(reg, values, ks, d, n), ks, d, n)
  {
    hide Act, ReadValue, DistinctKeys;
    if n > 0 {
      FilledFillsGaps(reg, values, ks, d, n - 1);
      ActFacts(reg, values.Keys, ks, d, n - 1);
      if Act(reg, values.Keys, ks, d, n - 1) == ImportManaged {
        FillOneGap(reg, values, Filled(reg, values, ks, d, n - 1), ks, d, n - 1);
      }
    }
  }

  // ----- What the secret commit writes -----

  lemma {:induction false} SecretChangeOf(reg: Registry, v: set<string>, ks: set<string>, d: Sources, n: nat, i: nat)
      returns (k: nat)
    requires n <= |reg.fields| && i < |SecretsUpTo(reg, v, ks, d, n)|
    ensures k < n && Act(reg, v, ks, d, k) == ImportSecret
    ensures SecretsUpTo(reg, v, ks, d, n)[i] == StoreSecret(reg.fields[k].key, Raw(reg, d, k))
    ensures |SecretsUpTo(reg, v, ks, d, k)| == i
  {
    hide Act, Raw;
    if i < |SecretsUpTo(reg, v, ks, d, n - 1)| {
      k := SecretChangeOf(reg, v, ks, d, n - 1, i);
    } else {
      k := n - 1;
    }
  }

  lemma {:induction false} SecretChangeFor(reg: Registry, v: set<string>, ks: set<string>, d: Sources, n: nat, k: nat)
    requires k < n <= |reg.fields| && Act(reg, v, ks, d, k) == ImportSecret
    ensures StoreSecret(reg.fields[k].key, Raw(reg, d, k)) in SecretsUpTo(reg, v, ks, d, n)
  {
    hide Act, Raw;
    if k < n - 1 {
      SecretChangeFor(reg, v, ks, d, n - 1, k);
    }
  }

  lemma {:induction false} StoredKeys(secrets: map<string, string>, changes: seq<SecretChange>, x: string)
    ensures x in WithSecrets(secrets, changes) <==> x in secrets || exists i :: 0 <= i < |changes| && changes[i].key == x
    decreases |changes|
  {
    if changes != [] {
      var rest := changes[..|changes| - 1];
      StoredKeys(secrets, rest, x);
      assert changes == rest + [changes[|changes| - 1]];
      if i :| 0 <= i < |changes| && changes[i].key == x {
        assert i < |rest| ==> rest[i].key == x;
      }
    }
  }

  /** The secret store takes a dotenv value unless the field is not editable or the text is a masking placeholder. */
  ghost predicate Storable(reg: Registry, d: Sources, k: nat)
    requires k < |reg.fields|
  {
    reg.fields[k].webEditable && Trim(Raw(reg, d, k)) !in MASKED
  }

  ghost predicate SecretsStorable(reg: Registry, v: set<string>, ks: set<string>, d: Sources) {
    forall k :: 0 <= k < |reg.fields| && Act(reg, v, ks, d, k) == ImportSecret ==> Storable(reg, d, k)
  }

  lemma SecretsAreFree(reg: Registry, secrets: map<string, string>, v: set<string>, d: Sources)
    requires DistinctKeys(reg.fields)
    ensures var changes := SecretsUpTo(reg, v, secrets.Keys, d, |reg.fields|);
            UpdatedSecrets(reg.fields, secrets, changes).Some? <==> SecretsStorable(reg, v, secrets.Keys, d)
  {
    hide Act, Raw, Require, DistinctKeys, IsBlank, Trim;
    var n := |reg.fields|;
    var changes := SecretsUpTo(reg, v, secrets.Keys, d, n);
    forall i | 0 <= i < |changes|
      ensures changes[i].key !in secrets
      ensures SecretsStorable(reg, v, secrets.Keys, d) ==> MayStore(reg.fields, changes[i])
    {
      var k := SecretChangeOf(reg, v, secrets.Keys, d, n, i);
      ActFacts(reg, v, secrets.Keys, d, k);
      RequireFinds(reg.fields, k);
    }
    SecretKeysDiffer(reg, v, secrets.Keys, d);
    forall k | 0 <= k < n && Act(reg, v, secrets.Keys, d, k) == ImportSecret && MayStoreAll(reg.fields, changes)
      ensures Storable(reg, d, k)
    {
      SecretChangeFor(reg, v, secrets.Keys, d, n, k);
      RequireFinds(reg.fields, k);
    }
  }

  lemma SecretKeysDiffer(reg: Registry, v: set<string>, ks: set<string>, d: Sources)
    requires DistinctKeys(reg.fields)
    ensures var changes := SecretsUpTo(reg, v, ks, d, |reg.fields|);
            forall i, j :: 0 <= i < j < |changes| ==> changes[i].key != changes[j].key
  {
    hide Act, Raw, SecretsUpTo;
    var n := |reg.fields|;
    var changes := SecretsUpTo(reg, v, ks, d, n);
    forall i, j | 0 <= i < j < |changes|
      ensures changes[i].key != changes[j].key
    {
      var a := SecretChangeOf(reg, v, ks, d, n, i);
      var b := SecretChangeOf(reg, v, ks, d, n, j);
      assert a != b;
    }
  }

  // ----- The whole run -----

  /** The first inventory succeeds and finds nothing invalid. */
  ghost predicate Ready(reg: Registry, s: Stores, files: seq<DotenvFile>, values: Values, d: Sources) {
    && Accepted(reg.fields) && Load(reg, s.managed) == Some(values) && LoadDotenv(files) == Ok(d)
    && !HasInvalid(Entries(reg, values.Keys, s.secrets.Keys, d))
  }

  ghost function FileAfter(reg: Registry, s: Stores, values: Values, d: Sources): ManagedFile {
    var n := |reg.fields|;
    if ManagedUpTo(reg, values.Keys, s.secrets.Keys, d, n) == [] then Initialized(s.managed)
    else Document(Filled(reg, values, s.secrets.Keys, d, n), PRETTY)
  }

  ghost function SecretsAfter(reg: Registry, s: Stores, values: Values, d: Sources): map<string, string> {
    WithSecrets(s.secrets, SecretsUpTo(reg, values.Keys, s.secrets.Keys, d, |reg.fields|))
  }

  /** Every change the stores call for. */
  ghost function Wanted(reg: Registry, v: set<string>, ks: set<string>, d: Sources): Changes {
    Changes(ManagedUpTo(reg, v, ks, d, |reg.fields|), SecretsUpTo(reg, v, ks, d, |reg.fields|))
  }

  lemma CheckPassesIffReady(reg: Registry, s: Stores, files: seq<DotenvFile>)
    ensures Check(reg, s.managed, s.secrets.Keys, files).Checked? <==>
            Load(reg, s.managed).Some? && LoadDotenv(files).Ok?
            && Ready(reg, s, files, Load(reg, s.managed).value, LoadDotenv(files).value)
  {
  }

  lemma PreparedAs(reg: Registry, s: Stores, files: seq<DotenvFile>, values: Values, d: Sources)
    requires Ready(reg, s, files, values, d)
    ensures Prepare(reg, Initialized(s.managed), s.secrets.Keys, files, files) ==
            Prepared(Initialized(s.managed), Wanted(reg, values.Keys, s.secrets.Keys, d), |reg.fields|)
  {
    hide LoadDotenv, HasInvalid, ManagedUpTo, SecretsUpTo, ChangesOf, Distinct, DistinctKeys;
    var n, es := |reg.fields|, Entries(reg, values.Keys, s.secrets.Keys, d);
    ChangesAre(reg, values.Keys, s.secrets.Keys, d, n);
    assert es[..n] == es;
  }

  lemma WrittenAs(reg: Registry, s: Stores, files: seq<DotenvFile>, values: Values, d: Sources)
    requires Ready(reg, s, files, values, d)
    ensures var n := |reg.fields|; var changes := Wanted(reg, values.Keys, s.secrets.Keys, d);
            WriteFile(reg, s.(managed := Initialized(s.managed)), Prepared(Initialized(s.managed), changes, n)) ==
            (Stores(FileAfter(reg, s, values, d), s.secrets), FileWritten(changes, n))
    ensures Load(reg, FileAfter(reg, s, values, d)) == Some(Filled(reg, values, s.secrets.Keys, d, |reg.fields|))
  {
    hide LoadDotenv, HasInvalid, Distinct, DistinctKeys, ManagedUpTo, SecretsUpTo, Filled, Changed, AllValid;
    var n := |reg.fields|;
    InitializedLoads(reg, s.managed);
    ChangedIsFilled(reg, values, s.secrets.Keys, d, n);
    if ManagedUpTo(reg, values.Keys, s.secrets.Keys, d, n) == [] {
      NothingChanged(reg, values);
    }
  }

  lemma NothingChanged(reg: Registry, values: Values)
    ensures Changed(reg, values, []) == Some(values)
  {
  }

  lemma InitializedLoads(reg: Registry, file: ManagedFile)
    ensures Load(reg, Initialized(file)) == Load(reg, file)
    ensures Load(reg, file).Some? ==> AllValid(reg, Load(reg, file).value)
  {
  }

  /** What the stores hold wherever the run is cut, and when it finishes. */
  lemma ApplyShape(reg: Registry, s: Stores, files: seq<DotenvFile>, values: Values, d: Sources, fault: Fault)
    requires Ready(reg, s, files, values, d)
    ensures var (s', p) := Apply(reg, s, files, fault);
            var storable := SecretsStorable(reg, values.Keys, s.secrets.Keys, d);
            && s' == (match fault
                      case BeforeOpen => s
                      case BeforePrepare => s.(managed := Initialized(s.managed))
                      case BeforeFile => s.(managed := Initialized(s.managed))
                      case BeforeSecrets => Stores(FileAfter(reg, s, values, d), s.secrets)
                      case NoFault =>
                        Stores(FileAfter(reg, s, values, d), if storable then SecretsAfter(reg, s, values, d) else s.secrets))
            && (p.Finished? <==> fault == NoFault && storable)
            && (fault == NoFault && !storable ==> p == Failed(InvalidInput))
            && (p.Finished? ==>
                  p.report == ReportOf(FileWritten(Wanted(reg, values.Keys, s.secrets.Keys, d), |reg.fields|)))
  {
    hide LoadDotenv, HasInvalid, Distinct, DistinctKeys, ManagedUpTo, SecretsUpTo, Filled, Changed, AllValid,
        ChangesOf, FileAfter, Prepare, WriteFile,
         UpdatedSecrets, Load;
    CheckPassesIffReady(reg, s, files);
    InitializedLoads(reg, s.managed);
    PreparedAs(reg, s, files, values, d);
    WrittenAs(reg, s, files, values, d);
    SecretsAreFree(reg, s.secrets, values.Keys, d);
    StoredWhenFree(reg, s.secrets, values.Keys, d);
  }

  lemma StoredWhenFree(reg: Registry, secrets: map<string, string>, v: set<string>, d: Sources)
    ensures var changes := SecretsUpTo(reg, v, secrets.Keys, d, |reg.fields|);
            && (UpdatedSecrets(reg.fields, secrets, changes).Some? ==>
                  UpdatedSecrets(reg.fields, secrets, changes).value == WithSecrets(secrets, changes))
            && (changes == [] ==>
                  UpdatedSecrets(reg.fields, secrets, changes).Some? && WithSecrets(secrets, changes) == secrets)
  {
  }

  // ----- Running it again -----

  lemma ActAfterFile(reg: Registry, values: Values, ks: set<string>, d: Sources, k: nat)
    requires k < |reg.fields| && DistinctKeys(reg.fields)
    ensures var a := Act(reg, values.Keys, ks, d, k);
            Act(reg, Filled(reg, values, ks, d, |reg.fields|).Keys, ks, d, k) == if a == ImportManaged then AlreadyManaged else a
  {
    hide Filled;
    FilledFillsGaps(reg, values, ks, d, |reg.fields|);
    ActFacts(reg, values.Keys, ks, d, k);
    var filled := Filled(reg, values, ks, d, |reg.fields|);
    assert reg.fields[k].key in filled <==> reg.fields[k].key in values || Act(reg, values.Keys, ks, d, k) == ImportManaged;
  }

  lemma ActAfterSecrets(reg: Registry, v: set<string>, secrets: map<string, string>, d: Sources, k: nat)
    requires k < |reg.fields| && DistinctKeys(reg.fields)
    ensures var a := Act(reg, v, secrets.Keys, d, k);
            var after := WithSecrets(secrets, SecretsUpTo(reg, v, secrets.Keys, d, |reg.fields|));
            Act(reg, v, after.Keys, d, k) == if a == ImportSecret then AlreadyManaged else a
  {
    hide SecretsUpTo, WithSecrets;
    var changes, key := SecretsUpTo(reg, v, secrets.Keys, d, |reg.fields|), reg.fields[k].key;
    StoredKeys(secrets, changes, key);
    ActFacts(reg, v, secrets.Keys, d, k);
    if Act(reg, v, secrets.Keys, d, k) == ImportSecret {
      SecretChangeFor(reg, v, secrets.Keys, d, |reg.fields|, k);
    } else if i :| 0 <= i < |changes| && changes[i].key == key {
      var j := SecretChangeOf(reg, v, secrets.Keys, d, |reg.fields|, i);
    }
  }

  lemma {:induction false} NothingToImport(reg: Registry, v: set<string>, ks: set<string>, d: Sources, n: nat)
    requires n <= |reg.fields| && forall k :: 0 <= k < n ==> Act(reg, v, ks, d, k) != ImportManaged
    ensures ManagedUpTo(reg, v, ks, d, n) == []
  {
    hide Act;
    if n > 0 {
      NothingToImport(reg, v, ks, d, n - 1);
    }
  }

  lemma {:induction false} SameSecretsToImport(reg: Registry, v: set<string>, w: set<string>, ks: set<string>,
      ls: set<string>, d: Sources, n: nat)
    requires n <= |reg.fields|
    requires forall k :: 0 <= k < n ==> (Act(reg, v, ks, d, k) == ImportSecret <==> Act(reg, w, ls, d, k) == ImportSecret)
    ensures SecretsUpTo(reg, v, ks, d, n) == SecretsUpTo(reg, w, ls, d, n)
  {
    hide Act;
    if n > 0 {
      SameSecretsToImport(reg, v, w, ks, ls, d, n - 1);
    }
  }

  lemma InvalidMeansAct(reg: Registry, v: set<string>, ks: set<string>, d: Sources)
    ensures HasInvalid(Entries(reg, v, ks, d)) <==> exists k :: 0 <= k < |reg.fields| && Act(reg, v, ks, d, k) == InvalidValue
  {
    hide ActionOf;
    var es := Entries(reg, v, ks, d);
    forall k | 0 <= k < |reg.fields|
      ensures es[k].action == Act(reg, v, ks, d, k)
    {
    }
    if k :| 0 <= k < |reg.fields| && Act(reg, v, ks, d, k) == InvalidValue {
      assert es[k].action == InvalidValue;
    }
  }

  /** After the file commit the file needs nothing more, and the secrets to store are the same as before it. */
  lemma AfterFileCommit(reg: Registry, s: Stores, files: seq<DotenvFile>, values: Values, d: Sources)
    requires Ready(reg, s, files, values, d)
    ensures var s1 := Stores(FileAfter(reg, s, values, d), s.secrets);
            var filled := Filled(reg, values, s.secrets.Keys, d, |reg.fields|);
            && Ready(reg, s1, files, filled, d)
            && (forall k :: 0 <= k < |reg.fields| ==> Act(reg, filled.Keys, s.secrets.Keys, d, k) != ImportManaged)
            && FileAfter(reg, s1, filled, d) == s1.managed == Initialized(s1.managed)
            && SecretsAfter(reg, s1, filled, d) == SecretsAfter(reg, s, values, d)
            && (SecretsStorable(reg, filled.Keys, s.secrets.Keys, d) <==> SecretsStorable(reg, values.Keys, s.secrets.Keys, d))
  {
    hide LoadDotenv, HasInvalid, Distinct, ManagedUpTo, SecretsUpTo, Filled, Load, Act, Entries, WithSecrets, Storable;
    var n, ks := |reg.fields|, s.secrets.Keys;
    var filled := Filled(reg, values, ks, d, n);
    WrittenAs(reg, s, files, values, d);
    InvalidMeansAct(reg, values.Keys, ks, d);
    InvalidMeansAct(reg, filled.Keys, ks, d);
    forall k | 0 <= k < n
      ensures var a := Act(reg, values.Keys, ks, d, k);
              Act(reg, filled.Keys, ks, d, k) == if a == ImportManaged then AlreadyManaged else a
    {
      ActAfterFile(reg, values, ks, d, k);
    }
    NothingToImport(reg, filled.Keys, ks, d, n);
    SameSecretsToImport(reg, filled.Keys, values.Keys, ks, ks, d, n);
  }

  /** After both commits nothing is left to import. */
  lemma AfterBothCommits(reg: Registry, s: Stores, files: seq<DotenvFile>, values: Values, d: Sources)
    requires Ready(reg, s, files, values, d)
    requires forall k :: 0 <= k < |reg.fields| ==> Act(reg, values.Keys, s.secrets.Keys, d, k) != ImportManaged
    ensures var s2 := Stores(Initialized(s.managed), SecretsAfter(reg, s, values, d));
            && Ready(reg, s2, files, values, d)
            && (forall k :: 0 <= k < |reg.fields| ==>
                  Act(reg, values.Keys, s2.secrets.Keys, d, k) !in {ImportManaged, ImportSecret, InvalidValue})
            && FileAfter(reg, s2, values, d) == s2.managed && SecretsAfter(reg, s2, values, d) == s2.secrets
  {
    hide LoadDotenv, HasInvalid, Distinct, ManagedUpTo, SecretsUpTo, Filled, Load, Act, Entries, Storable;
    var n := |reg.fields|;
    var s2 := Stores(Initialized(s.managed), SecretsAfter(reg, s, values, d));
    InitializedLoads(reg, s.managed);
    InvalidMeansAct(reg, values.Keys, s.secrets.Keys, d);
    InvalidMeansAct(reg, values.Keys, s2.secrets.Keys, d);
    forall k | 0 <= k < n
      ensures var a := Act(reg, values.Keys, s.secrets.Keys, d, k);
              Act(reg, values.Keys, s2.secrets.Keys, d, k) == if a == ImportSecret then AlreadyManaged else a
    {
      ActAfterSecrets(reg, values.Keys, s.secrets, d, k);
    }
    NothingToImport(reg, values.Keys, s2.secrets.Keys, d, n);
    NoSecretsToImport(reg, values.Keys, s2.secrets.Keys, d, n);
  }

  lemma {:induction false} NoSecretsToImport(reg: Registry, v: set<string>, ks: set<string>, d: Sources, n: nat)
    requires n <= |reg.fields| && forall k :: 0 <= k < n ==> Act(reg, v, ks, d, k) != ImportSecret
    ensures SecretsUpTo(reg, v, ks, d, n) == []
  {
    hide Act;
    if n > 0 {
      NoSecretsToImport(reg, v, ks, d, n - 1);
    }
  }

  // ----- Main results -----

  /** The inventory finds nothing to import and nothing invalid. */
  ghost predicate NothingLeft(reg: Registry, s: Stores, files: seq<DotenvFile>) {
    match Plan(reg, s.managed, s.secrets.Keys, files)
    case Err(_) => false
    case Ok(entries) => forall k :: 0 <= k < |entries| ==> entries[k].action !in {ImportManaged, ImportSecret, InvalidValue}
  }

  lemma NothingLeftMeans(reg: Registry, s: Stores, files: seq<DotenvFile>, values: Values, d: Sources)
    requires Ready(reg, s, files, values, d)
    ensures NothingLeft(reg, s, files) <==>
            forall k :: 0 <= k < |reg.fields| ==>
              Act(reg, values.Keys, s.secrets.Keys, d, k) !in {ImportManaged, ImportSecret, InvalidValue}
  {
    hide LoadDotenv, HasInvalid, ActionOf, FirstDefined, Load, Distinct, DistinctKeys;
    var es := Entries(reg, values.Keys, s.secrets.Keys, d);
    forall k | 0 <= k < |reg.fields|
      ensures es[k].action == Act(reg, values.Keys, s.secrets.Keys, d, k)
    {
    }
    if NothingLeft(reg, s, files) {
      forall k | 0 <= k < |reg.fields|
        ensures Act(reg, values.Keys, s.secrets.Keys, d, k) !in {ImportManaged, ImportSecret, InvalidValue}
      {
        assert es[k].action !in {ImportManaged, ImportSecret, InvalidValue};
      }
    }
  }

  /**
   An interrupted run followed by a full one leaves the stores, and succeeds or fails, as the full
   run alone would have.
   */
  lemma RerunReachesTheSameState(reg: Registry, s: Stores, files: seq<DotenvFile>, fault: Fault)
    ensures var interrupted := Apply(reg, s, files, fault).0;
            && Apply(reg, interrupted, files, NoFault).0 == Apply(reg, s, files, NoFault).0
            && (Apply(reg, interrupted, files, NoFault).1.Finished? <==> Apply(reg, s, files, NoFault).1.Finished?)
  {
    hide LoadDotenv, Ready, FileAfter, Apply, Load, SecretsAfter, SecretsStorable;
    if Check(reg, s.managed, s.secrets.Keys, files).Checked? {
      CheckPassesIffReady(reg, s, files);
      RerunWhenReady(reg, s, files, Load(reg, s.managed).value, LoadDotenv(files).value, fault);
    } else {
      NotReadyStays(reg, s, files, fault);
      NotReadyStays(reg, s, files, NoFault);
    }
  }

  lemma NotReadyStays(reg: Registry, s: Stores, files: seq<DotenvFile>, fault: Fault)
    requires !Check(reg, s.managed, s.secrets.Keys, files).Checked?
    ensures Apply(reg, s, files, fault).0 == s && Apply(reg, s, files, fault).1.Failed?
  {
  }

  lemma OpenedIsReady(reg: Registry, s: Stores, files: seq<DotenvFile>, values: Values, d: Sources)
    requires Ready(reg, s, files, values, d)
    ensures var s0 := s.(managed := Initialized(s.managed));
            Ready(reg, s0, files, values, d) && FileAfter(reg, s0, values, d) == FileAfter(reg, s, values, d)
  {
    hide LoadDotenv, HasInvalid, Distinct, DistinctKeys, ManagedUpTo, Filled, Load, Entries;
    InitializedLoads(reg, s.managed);
  }

  lemma RerunWhenReady(reg: Registry, s: Stores, files: seq<DotenvFile>, values: Values, d: Sources, fault: Fault)
    requires Ready(reg, s, files, values, d)
    ensures var interrupted := Apply(reg, s, files, fault).0;
            && Apply(reg, interrupted, files, NoFault).0 == Apply(reg, s, files, NoFault).0
            && (Apply(reg, interrupted, files, NoFault).1.Finished? <==> Apply(reg, s, files, NoFault).1.Finished?)
  {
    hide LoadDotenv, Ready, FileAfter, Apply, Load, SecretsAfter, SecretsStorable, Filled, Initialized;
    ApplyShape(reg, s, files, values, d, fault);
    ApplyShape(reg, s, files, values, d, NoFault);
    match fault
    case BeforeOpen =>
    case BeforePrepare =>
      OpenedIsReady(reg, s, files, values, d);
      ApplyShape(reg, s.(managed := Initialized(s.managed)), files, values, d, NoFault);
      SameSecretsAfter(reg, s, values, d);
    case BeforeFile =>
      OpenedIsReady(reg, s, files, values, d);
      ApplyShape(reg, s.(managed := Initialized(s.managed)), files, values, d, NoFault);
      SameSecretsAfter(reg, s, values, d);
    case BeforeSecrets =>
      RerunAfterFile(reg, s, files, values, d);
    case NoFault =>
      RerunAfterFile(reg, s, files, values, d);
      if SecretsStorable(reg, values.Keys, s.secrets.Keys, d) {
        RerunAfterBoth(reg, s, files, values, d);
      }
  }

  lemma SameSecretsAfter(reg: Registry, s: Stores, values: Values, d: Sources)
    ensures SecretsAfter(reg, s.(managed := Initialized(s.managed)), values, d) == SecretsAfter(reg, s, values, d)
  {
  }

  lemma RerunAfterFile(reg: Registry, s: Stores, files: seq<DotenvFile>, values: Values, d: Sources)
    requires Ready(reg, s, files, values, d)
    ensures var (s', p) := Apply(reg, Stores(FileAfter(reg, s, values, d), s.secrets), files, NoFault);
            var storable := SecretsStorable(reg, values.Keys, s.secrets.Keys, d);
            && s' == Stores(FileAfter(reg, s, values, d), if storable then SecretsAfter(reg, s, values, d) else s.secrets)
            && (p.Finished? <==> storable)
  {
    hide LoadDotenv, Ready, FileAfter, Apply, Load, SecretsAfter, SecretsStorable, Filled, Initialized;
    AfterFileCommit(reg, s, files, values, d);
    var filled := Filled(reg, values, s.secrets.Keys, d, |reg.fields|);
    ApplyShape(reg, Stores(FileAfter(reg, s, values, d), s.secrets), files, filled, d, NoFault);
  }

  lemma RerunAfterBoth(reg: Registry, s: Stores, files: seq<DotenvFile>, values: Values, d: Sources)
    requires Ready(reg, s, files, values, d)
    ensures var s2 := Stores(FileAfter(reg, s, values, d), SecretsAfter(reg, s, values, d));
            && Apply(reg, s2, files, NoFault) == (s2, Finished(Report(0, 0, |reg.fields|)))
            && NothingLeft(reg, s2, files)
  {
    hide LoadDotenv, Ready, FileAfter, Apply, Load, SecretsAfter, Filled, Initialized, NothingLeft, ManagedUpTo,
        SecretsUpTo, Act;
    var filled := Filled(reg, values, s.secrets.Keys, d, |reg.fields|);
    AfterFileCommit(reg, s, files, values, d);
    var s1 := Stores(FileAfter(reg, s, values, d), s.secrets);
    AfterBothCommits(reg, s1, files, filled, d);
    var s2 := Stores(s1.managed, SecretsAfter(reg, s1, filled, d));
    NothingToImport(reg, filled.Keys, s2.secrets.Keys, d, |reg.fields|);
    NoSecretsToImport(reg, filled.Keys, s2.secrets.Keys, d, |reg.fields|);
    ApplyShape(reg, s2, files, filled, d, NoFault);
    NothingLeftMeans(reg, s2, files, filled, d);
  }

  /**
   A migration succeeds exactly when the first inventory passes and the secret store would take
   every secret to import.
   */
  lemma ApplySucceedsIff(reg: Registry, s: Stores, files: seq<DotenvFile>)
    ensures Apply(reg, s, files, NoFault).1.Finished? <==>
            && Check(reg, s.managed, s.secrets.Keys, files).Checked?
            && SecretsStorable(reg, Load(reg, s.managed).value.Keys, s.secrets.Keys, LoadDotenv(files).value)
  {
    hide LoadDotenv, FileAfter, Apply, Load, SecretsAfter, SecretsStorable;
    if Check(reg, s.managed, s.secrets.Keys, files).Checked? {
      CheckPassesIffReady(reg, s, files);
      ApplyShape(reg, s, files, Load(reg, s.managed).value, LoadDotenv(files).value, NoFault);
    } else {
      NotReadyStays(reg, s, files, NoFault);
    }
  }

  const TOKEN_FIELD := Field("token", "TOKEN", [], Secret, true)
  const MASKED_FILE: seq<DotenvFile> := [Lines([Pair("TOKEN", "********")])]
  const MASKED_SOURCES: Sources := map["TOKEN" := Source("********", 0)]

  /** One secret whose dotenv value is a masking placeholder: the inventory passes and the migration fails. */
  lemma MaskedSecretFails(reg: Registry)
    requires reg.fields == [TOKEN_FIELD]
    ensures var s := Stores(Missing, map[]);
      Check(reg, s.managed, s.secrets.Keys, MASKED_FILE).Checked? && !Apply(reg, s, MASKED_FILE, NoFault).1.Finished?
  {
    hide Apply, LoadDotenv, EntryOf, Accepted, Act, Raw, Trim, ActionOf;
    var s := Stores(Missing, map[]);
    assert s.secrets.Keys == {};
    ApplySucceedsIff(reg, s, MASKED_FILE);
    MaskedFileLoads();
    TokenIsAccepted(reg);
    MaskedTokenIsImported(reg);
    assert !Storable(reg, MASKED_SOURCES, 0);
  }

  lemma MaskedFileLoads()
    ensures LoadDotenv(MASKED_FILE) == Ok(MASKED_SOURCES)
  {
    var line := Pair("TOKEN", "********");
    assert [line][..0] == [];
    assert WithLines(map[], 0, [line]) == Some(MASKED_SOURCES);
    assert MASKED_FILE[..0] == [];
    assert LoadDotenv([]) == Ok(map[]);
  }

  lemma TokenIsAccepted(reg: Registry)
    requires reg.fields == [TOKEN_FIELD]
    ensures Accepted(reg.fields)
  {
    hide Trim;
    assert reg.fields[1..] == [];
    assert AllEnvNames(reg.fields) == ["TOKEN"];
    PrintableIsNotWhitespace('T');
    PrintableIsNotWhitespace('N');
    assert !IsBlank("TOKEN") by { Visible("TOKEN"); }
  }

  lemma Visible(s: string)
    requires s != "" && !IsWhitespace(s[0]) && !IsWhitespace(s[|s| - 1])
    ensures Trim(s) == s && !IsBlank(s)
  {
  }

  lemma MaskedTokenIsImported(reg: Registry)
    requires reg.fields == [TOKEN_FIELD]
    ensures Act(reg, {}, {}, MASKED_SOURCES, 0) == ImportSecret
    ensures Raw(reg, MASKED_SOURCES, 0) == "********" && Trim("********") == "********"
    ensures EntryOf(reg, reg.fields[0], {}, {}, MASKED_SOURCES).action == ImportSecret
  {
    hide Trim, IsBlank;
    var f := reg.fields[0];
    assert EnvNames(f) == ["TOKEN"];
    PrintableIsNotWhitespace('*');
    Visible("********");
  }

  /** A migration succeeds exactly when the stores it leaves have nothing more to import. */
  lemma SuccessIffNothingLeft(reg: Registry, s: Stores, files: seq<DotenvFile>)
    ensures var (s', p) := Apply(reg, s, files, NoFault); p.Finished? <==> NothingLeft(reg, s', files)
  {
    hide LoadDotenv, FileAfter, Apply, Load, SecretsAfter, Filled, Initialized, Act, Storable, NothingLeft;
    if Check(reg, s.managed, s.secrets.Keys, files).Checked? {
      CheckPassesIffReady(reg, s, files);
      var values, d := Load(reg, s.managed).value, LoadDotenv(files).value;
      ApplyShape(reg, s, files, values, d, NoFault);
      if SecretsStorable(reg, values.Keys, s.secrets.Keys, d) {
        RerunAfterBoth(reg, s, files, values, d);
      } else {
        AfterFileCommit(reg, s, files, values, d);
        var filled := Filled(reg, values, s.secrets.Keys, d, |reg.fields|);
        NothingLeftMeans(reg, Stores(FileAfter(reg, s, values, d), s.secrets), files, filled, d);
      }
    } else {
      NotReadyStays(reg, s, files, NoFault);
      NothingLeftPasses(reg, s, files);
    }
  }

  lemma NothingLeftPasses(reg: Registry, s: Stores, files: seq<DotenvFile>)
    ensures NothingLeft(reg, s, files) ==> Check(reg, s.managed, s.secrets.Keys, files).Checked?
  {
    hide Plan;
  }

  /** After a success, a second run reports no import and leaves the stores alone. */
  lemma SecondRunIsIdle(reg: Registry, s: Stores, files: seq<DotenvFile>)
    requires Apply(reg, s, files, NoFault).1.Finished?
    ensures var s' := Apply(reg, s, files, NoFault).0;
            Apply(reg, s', files, NoFault) == (s', Finished(Report(0, 0, |reg.fields|)))
  {
    hide LoadDotenv, FileAfter, Apply, Load, SecretsAfter, Filled, Initialized, NothingLeft;
    ApplySucceedsIff(reg, s, files);
    CheckPassesIffReady(reg, s, files);
    ApplyShape(reg, s, files, Load(reg, s.managed).value, LoadDotenv(files).value, NoFault);
    RerunAfterBoth(reg, s, files, Load(reg, s.managed).value, LoadDotenv(files).value);
  }

  /** Stored secrets stay, and a new one is that of a field to import, with its dotenv text. */
  ghost predicate FillsSecretGaps(reg: Registry, secrets: map<string, string>, after: map<string, string>,
      v: set<string>, d: Sources, n: nat)
    requires n <= |reg.fields|
  {
    && (forall x :: x in secrets ==> x in after && after[x] == secrets[x])
    && (forall x :: x in after && x !in secrets ==>
          exists k :: 0 <= k < n && reg.fields[k].key == x && Act(reg, v, secrets.Keys, d, k) == ImportSecret)
    && (forall k :: 0 <= k < n && Act(reg, v, secrets.Keys, d, k) == ImportSecret ==>
          reg.fields[k].key in after && after[reg.fields[k].key] == Raw(reg, d, k))
  }

  lemma FillOneSecretGap(reg: Registry, secrets: map<string, string>, after: map<string, string>, v: set<string>,
      d: Sources, n: nat)
    requires n < |reg.fields| && DistinctKeys(reg.fields) && FillsSecretGaps(reg, secrets, after, v, d, n)
    requires Act(reg, v, secrets.Keys, d, n) == ImportSecret && reg.fields[n].key !in secrets
    ensures FillsSecretGaps(reg, secrets, after[reg.fields[n].key := Raw(reg, d, n)], v, d, n + 1)
  {
    hide Act, Raw;
    var grown := after[reg.fields[n].key := Raw(reg, d, n)];
    forall x | x in grown && x !in secrets
      ensures exists k :: 0 <= k < n + 1 && reg.fields[k].key == x && Act(reg, v, secrets.Keys, d, k) == ImportSecret
    {
      if x == reg.fields[n].key {
        assert Act(reg, v, secrets.Keys, d, n) == ImportSecret;
      } else {
        assert x in after;
      }
    }
  }

  lemma NothingStored(reg: Registry, secrets: map<string, string>, v: set<string>, d: Sources)
    ensures FillsSecretGaps(reg, secrets, WithSecrets(secrets, []), v, d, 0)
  {
  }

  lemma StoresLast(secrets: map<string, string>, changes: seq<SecretChange>)
    requires changes != []
    ensures var last := |changes| - 1;
      WithSecrets(secrets, changes) == WithSecrets(secrets, changes[..last])[changes[last].key := changes[last].value]
  {
  }

  lemma SkipOneField(reg: Registry, secrets: map<string, string>, after: map<string, string>, v: set<string>,
      d: Sources, n: nat)
    requires n < |reg.fields| && FillsSecretGaps(reg, secrets, after, v, d, n)
    requires Act(reg, v, secrets.Keys, d, n) != ImportSecret
    ensures FillsSecretGaps(reg, secrets, after, v, d, n + 1)
  {
    hide Act, Raw;
  }

  lemma {:induction false} StoredFillsGaps(reg: Registry, secrets: map<string, string>, v: set<string>, d: Sources,
      n: nat)
    requires n <= |reg.fields| && DistinctKeys(reg.fields)
    ensures FillsSecretGaps(reg, secrets, WithSecrets(secrets, SecretsUpTo(reg, v, secrets.Keys, d, n)), v, d, n)
  {
    hide Act, Raw, DistinctKeys, FillsSecretGaps, WithSecrets;
    if n == 0 {
      NothingStored(reg, secrets, v, d);
    } else {
      StoredFillsGaps(reg, secrets, v, d, n - 1);
      ActFacts(reg, v, secrets.Keys, d, n - 1);
      var all, rest := SecretsUpTo(reg, v, secrets.Keys, d, n), SecretsUpTo(reg, v, secrets.Keys, d, n - 1);
      if Act(reg, v, secrets.Keys, d, n - 1) == ImportSecret {
        assert all[..|all| - 1] == rest;
        FillOneSecretGap(reg, secrets, WithSecrets(secrets, rest), v, d, n - 1);
        StoresLast(secrets, all);
      } else {
        assert all == rest;
        SkipOneField(reg, secrets, WithSecrets(secrets, rest), v, d, n - 1);
      }
    }
  }

  /**
   Once the first inventory passes, a full run fills exactly the gaps of the file, and exactly
   those of the secret store or none of them.
   */
  lemma ApplyFillsExactlyTheGaps(reg: Registry, s: Stores, files: seq<DotenvFile>, values: Values, d: Sources)
    requires Ready(reg, s, files, values, d)
    ensures var (s', p) := Apply(reg, s, files, NoFault);
            && Load(reg, s'.managed).Some? && FillsGaps(reg, values, Load(reg, s'.managed).value, s.secrets.Keys, d, |reg.fields|)
            && (if p.Finished?
                then FillsSecretGaps(reg, s.secrets, s'.secrets, values.Keys, d, |reg.fields|)
                else s'.secrets == s.secrets)
  {
    hide LoadDotenv, FileAfter, Apply, Load, Filled, FillsGaps, FillsSecretGaps, Distinct, HasInvalid, Entries;
    ApplyShape(reg, s, files, values, d, NoFault);
    WrittenAs(reg, s, files, values, d);
    FilledFillsGaps(reg, values, s.secrets.Keys, d, |reg.fields|);
    StoredFillsGaps(reg, s.secrets, values.Keys, d, |reg.fields|);
  }
}
