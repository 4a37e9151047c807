/** What the inventory decides for every field and what a finished migration has imported, by the definitions alone. */
module MigrationActions {
  import opened Wrappers
  import opened Characters
  import opened ConfigMigration
  import opened MigrationRerun

  // ----- The value a field gets -----

  /** Some line of the files defines the name. */
  ghost predicate Defined(defs: seq<Definition>, name: string) {
    exists k :: 0 <= k < |defs| && defs[k].name == name
  }

  /**
   The files give the field this value under this name: the first definition of the first name that
   has one, the environment name before the aliases and the aliases in order.
   */
  ghost predicate Gives(f: Field, defs: seq<Definition>, name: string, value: string) {
    || (name == f.envName && FirstValue(defs, name, value))
    || (&& !Defined(defs, f.envName)
        && exists n :: 0 <= n < |f.aliases| && f.aliases[n] == name && FirstValue(defs, name, value)
                       && forall m :: 0 <= m < n ==> !Defined(defs, f.aliases[m]))
  }

  ghost predicate FirstValue(defs: seq<Definition>, name: string, value: string) {
    exists k :: IsFirst(defs, name, k) && defs[k].source.value == value
  }

  /** No name of the field is defined. */
  ghost predicate Absent(f: Field, defs: seq<Definition>) {
    !Defined(defs, f.envName) && forall n :: 0 <= n < |f.aliases| ==> !Defined(defs, f.aliases[n])
  }

  lemma HeldIffDefined(m: Sources, defs: seq<Definition>, name: string)
    requires HoldsFirst(m, defs)
    ensures name in m <==> Defined(defs, name)
    ensures name in m ==> FirstValue(defs, name, m[name].value)
    ensures name in m ==> forall v :: FirstValue(defs, name, v) ==> v == m[name].value
  {
    if name in m {
      var k :| IsFirst(defs, name, k) && defs[k].source == m[name];
      assert defs[k].name == name;
    }
  }

  lemma {:induction false} FirstDefinedIsFirst(names: seq<string>, m: Sources)
    ensures match FirstDefined(names, m)
            case None => forall n :: 0 <= n < |names| ==> names[n] !in m
            case Some(name) =>
              exists n :: 0 <= n < |names| && names[n] == name && name in m && forall j :: 0 <= j < n ==> names[j] !in m
  {
    if names != [] && names[0] !in m {
      FirstDefinedIsFirst(names[1..], m);
      if FirstDefined(names[1..], m).Some? {
        var name := FirstDefined(names[1..], m).value;
        var n :| 0 <= n < |names[1..]| && names[1..][n] == name && name in m
               && forall j :: 0 <= j < n ==> names[1..][j] !in m;
        assert names[n + 1] == name && forall j :: 0 < j < n + 1 ==> names[j] == names[1..][j - 1];
      }
    }
  }

  ghost predicate Tells(m: Sources, defs: seq<Definition>, name: string) {
    && (name in m <==> Defined(defs, name))
    && (name in m ==> FirstValue(defs, name, m[name].value))
    && forall v :: FirstValue(defs, name, v) ==> name in m && v == m[name].value
  }

  lemma LookupTells(m: Sources, defs: seq<Definition>, name: string)
    requires HoldsFirst(m, defs)
    ensures Tells(m, defs, name)
  {
    hide HoldsFirst;
    HeldIffDefined(m, defs, name);
    assert forall v :: FirstValue(defs, name, v) ==> Defined(defs, name);
  }

  /** The name that the lookup finds is the only one by which the files give the field a value. */
  lemma FoundGives(f: Field, m: Sources, defs: seq<Definition>, n: nat)
    requires n < |EnvNames(f)| && EnvNames(f)[n] in m && forall j :: 0 <= j < n ==> EnvNames(f)[j] !in m
    requires forall name :: Tells(m, defs, name)
    ensures var name := EnvNames(f)[n];
      Gives(f, defs, name, m[name].value) && !Absent(f, defs)
      && forall x, v :: Gives(f, defs, x, v) ==> x == name && v == m[name].value
  {
    hide Defined, FirstValue;
    var names := EnvNames(f);
    var name := names[n];
    assert Tells(m, defs, name) && Tells(m, defs, f.envName);
    assert names[0] == f.envName && forall k :: 0 <= k < |f.aliases| ==> f.aliases[k] == names[k + 1];
    forall k | 0 <= k < |f.aliases|
      ensures Tells(m, defs, f.aliases[k])
    {
    }
    forall x, v | Gives(f, defs, x, v)
      ensures x == name && v == m[name].value
    {
      assert Tells(m, defs, x);
      if x != f.envName || !FirstValue(defs, x, v) {
        var k :| 0 <= k < |f.aliases| && f.aliases[k] == x && FirstValue(defs, x, v)
                 && forall j :: 0 <= j < k ==> !Defined(defs, f.aliases[j]);
        OnlyOne(names, m, n, k + 1);
      } else {
        OnlyOne(names, m, n, 0);
      }
    }
  }

  lemma OnlyOne(names: seq<string>, m: Sources, n: nat, k: nat)
    requires n < |names| && names[n] in m && forall j :: 0 <= j < n ==> names[j] !in m
    requires k < |names| && names[k] in m && forall j :: 0 <= j < k ==> names[j] !in m
    ensures n == k
  {
  }

  lemma NothingGives(f: Field, m: Sources, defs: seq<Definition>)
    requires forall j :: 0 <= j < |EnvNames(f)| ==> EnvNames(f)[j] !in m
    requires forall name :: Tells(m, defs, name)
    ensures Absent(f, defs) && forall n, v :: !Gives(f, defs, n, v)
  {
    hide Defined, FirstValue;
    var names := EnvNames(f);
    assert Tells(m, defs, f.envName);
    assert names[0] == f.envName && forall k :: 0 <= k < |f.aliases| ==> f.aliases[k] == names[k + 1];
    forall k | 0 <= k < |f.aliases|
      ensures Tells(m, defs, f.aliases[k])
    {
    }
  }

  /** Looking the field's names up in the loaded map finds exactly the value the files give. */
  lemma LookupGives(f: Field, m: Sources, defs: seq<Definition>)
    requires HoldsFirst(m, defs)
    ensures match FirstDefined(EnvNames(f), m)
            case None => Absent(f, defs) && forall n, v :: !Gives(f, defs, n, v)
            case Some(name) => name in m && Gives(f, defs, name, m[name].value) && !Absent(f, defs)
                               && forall n, v :: Gives(f, defs, n, v) ==> n == name && v == m[name].value
  {
    hide HoldsFirst, FirstDefined, Gives, Absent, EnvNames, Tells;
    var names := EnvNames(f);
    FirstDefinedIsFirst(names, m);
    forall name
      ensures Tells(m, defs, name)
    {
      LookupTells(m, defs, name);
    }
    match FirstDefined(names, m)
    case None =>
      NothingGives(f, m, defs);
    case Some(name) =>
      var n :| 0 <= n < |names| && names[n] == name && name in m && forall j :: 0 <= j < n ==> names[j] !in m;
      FoundGives(f, m, defs, n);
  }

  // ----- The registry -----

  /** The names of a field, the environment name first. */
  function NameOf(f: Field, n: nat): string
    requires n <= |f.aliases|
  {
    if n == 0 then f.envName else f.aliases[n - 1]
  }

  ghost predicate IsName(fields: seq<Field>, i: nat, n: nat) {
    i < |fields| && n <= |fields[i].aliases|
  }

  /** No name stands in two places. */
  ghost predicate NamesApart(fields: seq<Field>) {
    forall i: nat, n: nat, j: nat, m: nat :: IsName(fields, i, n) && IsName(fields, j, m) && (i != j || n != m) ==>
      NameOf(fields[i], n) != NameOf(fields[j], m)
  }

  lemma NamesOfOne(f: Field)
    ensures |EnvNames(f)| == |f.aliases| + 1 && forall n: nat :: n <= |f.aliases| ==> EnvNames(f)[n] == NameOf(f, n)
  {
  }

  lemma {:induction false} AllNames(fields: seq<Field>, x: string)
    ensures x in AllEnvNames(fields) <==> exists i: nat, n: nat :: IsName(fields, i, n) && NameOf(fields[i], n) == x
  {
    hide EnvNames, NameOf;
    if fields != [] {
      var f, rest := fields[0], fields[1..];
      AllNames(rest, x);
      NamesOfOne(f);
      if x in EnvNames(f) {
        var n :| 0 <= n < |EnvNames(f)| && EnvNames(f)[n] == x;
        assert IsName(fields, 0, n);
      } else if x in AllEnvNames(rest) {
        var i: nat, n: nat :| IsName(rest, i, n) && NameOf(rest[i], n) == x;
        assert IsName(fields, i + 1, n) && fields[i + 1] == rest[i];
      }
      if i: nat, n: nat :| IsName(fields, i, n) && NameOf(fields[i], n) == x {
        if i > 0 {
          assert IsName(rest, i - 1, n) && rest[i - 1] == fields[i];
        } else {
          assert EnvNames(f)[n] == x;
        }
      }
    }
  }

  lemma DistinctSplit(a: seq<string>, b: seq<string>)
    ensures Distinct(a + b) <==> Distinct(a) && Distinct(b) && forall x :: x in a ==> x !in b
  {
    var s := a + b;
    assert forall i :: 0 <= i < |s| ==> s[i] == if i < |a| then a[i] else b[i - |a|];
    if Distinct(s) {
      forall i, j | 0 <= i < j < |b|
        ensures b[i] != b[j]
      {
        assert b[i] == s[|a| + i] && b[j] == s[|a| + j];
      }
      forall i, j | 0 <= i < |a| && 0 <= j < |b|
        ensures a[i] != b[j]
      {
        assert a[i] == s[i] && b[j] == s[|a| + j];
      }
    } else {
      var i, j :| 0 <= i < j < |s| && s[i] == s[j];
      if i < |a| <= j {
        assert a[i] in b;
      } else if |a| <= i {
        assert b[i - |a|] == b[j - |a|];
      }
    }
  }

  /** A name of the first field is none of the others'. */
  ghost predicate FirstApart(f: Field, rest: seq<Field>) {
    forall m: nat, i: nat, n: nat :: m <= |f.aliases| && IsName(rest, i, n) ==> NameOf(f, m) != NameOf(rest[i], n)
  }

  lemma FirstApartIff(f: Field, rest: seq<Field>)
    ensures FirstApart(f, rest) <==> forall x :: x in EnvNames(f) ==> x !in AllEnvNames(rest)
  {
    hide EnvNames, NameOf, AllEnvNames;
    NamesOfOne(f);
    forall x
      ensures x in AllEnvNames(rest) <==> exists i: nat, n: nat :: IsName(rest, i, n) && NameOf(rest[i], n) == x
    {
      AllNames(rest, x);
    }
    if FirstApart(f, rest) {
      forall x | x in EnvNames(f)
        ensures x !in AllEnvNames(rest)
      {
        var m :| 0 <= m < |EnvNames(f)| && EnvNames(f)[m] == x;
        assert NameOf(f, m) == x;
      }
    } else {
      var m: nat, i: nat, n: nat :| m <= |f.aliases| && IsName(rest, i, n) && NameOf(f, m) == NameOf(rest[i], n);
      assert EnvNames(f)[m] in AllEnvNames(rest);
    }
  }

  lemma ApartBelow(fields: seq<Field>)
    requires fields != [] && NamesApart(fields)
    ensures Distinct(EnvNames(fields[0])) && NamesApart(fields[1..]) && FirstApart(fields[0], fields[1..])
  {
    hide EnvNames, NameOf;
    var f, rest := fields[0], fields[1..];
    NamesOfOne(f);
    forall i: nat, n: nat | IsName(rest, i, n)
      ensures IsName(fields, i + 1, n) && fields[i + 1] == rest[i]
    {
    }
    forall n: nat | n < |EnvNames(f)|
      ensures IsName(fields, 0, n) && NameOf(f, n) == EnvNames(f)[n]
    {
    }
  }

  lemma ApartAbove(fields: seq<Field>)
    requires fields != []
    requires Distinct(EnvNames(fields[0])) && NamesApart(fields[1..]) && FirstApart(fields[0], fields[1..])
    ensures NamesApart(fields)
  {
    hide EnvNames, NameOf;
    var f, rest := fields[0], fields[1..];
    NamesOfOne(f);
    forall i: nat, n: nat, j: nat, m: nat | IsName(fields, i, n) && IsName(fields, j, m) && (i != j || n != m)
      ensures NameOf(fields[i], n) != NameOf(fields[j], m)
    {
      assert i > 0 ==> IsName(rest, i - 1, n) && rest[i - 1] == fields[i];
      assert j > 0 ==> IsName(rest, j - 1, m) && rest[j - 1] == fields[j];
      if i == 0 && j == 0 {
        assert EnvNames(f)[n] == NameOf(f, n) && EnvNames(f)[m] == NameOf(f, m);
      }
    }
  }

  lemma NamesApartSplit(fields: seq<Field>)
    requires fields != []
    ensures NamesApart(fields)
       <==> Distinct(EnvNames(fields[0])) && NamesApart(fields[1..]) && FirstApart(fields[0], fields[1..])
  {
    hide EnvNames, NamesApart, FirstApart, Distinct;
    if NamesApart(fields) {
      ApartBelow(fields);
    } else if Distinct(EnvNames(fields[0])) && NamesApart(fields[1..]) && FirstApart(fields[0], fields[1..]) {
      ApartAbove(fields);
    }
  }

  lemma {:induction false} ApartIffDistinct(fields: seq<Field>)
    ensures Distinct(AllEnvNames(fields)) <==> NamesApart(fields)
  {
    hide EnvNames, NameOf, NamesApart, FirstApart, Distinct;
    if fields == [] {
      assert Distinct([]) && NamesApart([]) by {
        NoNamesApart();
      }
    } else {
      ApartIffDistinct(fields[1..]);
      NamesApartSplit(fields);
      FirstApartIff(fields[0], fields[1..]);
      DistinctSplit(EnvNames(fields[0]), AllEnvNames(fields[1..]));
    }
  }

  lemma NoNamesApart()
    ensures Distinct([]) && NamesApart([])
  {
  }

  ghost predicate NoneBlank(fields: seq<Field>) {
    forall i: nat, n: nat :: IsName(fields, i, n) ==> Trim(NameOf(fields[i], n)) != ""
  }

  lemma NoneBlankIff(fields: seq<Field>)
    ensures NoneBlank(fields) <==> forall x :: x in AllEnvNames(fields) ==> Trim(x) != ""
  {
    hide AllEnvNames, NameOf, Trim;
    forall x
      ensures x in AllEnvNames(fields) <==> exists i: nat, n: nat :: IsName(fields, i, n) && NameOf(fields[i], n) == x
    {
      AllNames(fields, x);
    }
    if !NoneBlank(fields) {
      var i: nat, n: nat :| IsName(fields, i, n) && Trim(NameOf(fields[i], n)) == "";
      assert NameOf(fields[i], n) in AllEnvNames(fields);
    }
  }

  /** A registry is accepted exactly when no key and no name stands in two places and no name is blank. */
  lemma AcceptedIff(fields: seq<Field>)
    ensures Accepted(fields)
       <==> && (forall i, j :: 0 <= i < j < |fields| ==> fields[i].key != fields[j].key)
            && NamesApart(fields) && NoneBlank(fields)
  {
    hide AllEnvNames, NamesApart, NoneBlank, Distinct, Trim;
    ApartIffDistinct(fields);
    NoneBlankIff(fields);
  }

  // ----- Errors -----

  lemma OnlyOneIsFirstBad(files: seq<DotenvFile>, i: nat, j: nat)
    requires FirstBad(files, i) && FirstBad(files, j)
    ensures i == j
  {
  }

  /** The first file that cannot be loaded decides the error: reading failed, or its content is no dotenv text. */
  lemma {:induction false} FirstBadFileDecides(files: seq<DotenvFile>)
    ensures LoadDotenv(files).Err? ==>
              exists i :: 0 <= i < |files| && FirstBad(files, i)
                          && LoadDotenv(files) == Err(if files[i].Unreadable? then IoError else InvalidInput)
    decreases |files|
  {
    if files != [] {
      var rest, last := files[..|files| - 1], files[|files| - 1];
      FirstBadFileDecides(rest);
      LoadDotenvMeaning(rest);
      LoadDotenvMeaning(files);
      if LoadDotenv(rest).Err? {
        var i :| 0 <= i < |rest| && FirstBad(rest, i)
                 && LoadDotenv(rest) == Err(if rest[i].Unreadable? then IoError else InvalidInput);
        assert FirstBad(files, i) && files[i] == rest[i];
      } else if LoadDotenv(files).Err? {
        assert FirstBad(files, |rest|);
      }
    }
  }

  ghost predicate FirstBad(files: seq<DotenvFile>, i: nat) {
    i < |files| && !Readable(files[i]) && forall k :: 0 <= k < i ==> Readable(files[k])
  }

  // ----- The action of every entry -----

  /** The registry accepts the value the files give a public, editable field that nothing holds yet. */
  ghost predicate ImportsPublic(reg: Registry, f: Field, held: set<string>, value: string) {
    && f.sensitivity == Public && f.key !in held
    && reg.parse(f, value).Some? && f.webEditable && reg.admits(f, reg.parse(f, value).value)
  }

  /** A secret field that nothing holds yet is given a value that is not blank. */
  ghost predicate ImportsSecret(f: Field, held: set<string>, value: string) {
    f.sensitivity == Secret && f.key !in held && Trim(value) != ""
  }

  /** The decision for one field, on the files' definitions and the keys that the stores hold. */
  ghost predicate Decided(reg: Registry, f: Field, defs: seq<Definition>, held: set<string>, e: Entry) {
    && e.key == f.key
    && (e.action == NotPresent <==> Absent(f, defs))
    && (e.action == KeepExternal <==> !Absent(f, defs) && f.sensitivity == Restricted)
    && (e.action == AlreadyManaged <==> !Absent(f, defs) && f.sensitivity != Restricted && f.key in held)
    && (e.action == ImportManaged <==> exists n, v :: Gives(f, defs, n, v) && ImportsPublic(reg, f, held, v))
    && (e.action == ImportSecret <==> exists n, v :: Gives(f, defs, n, v) && ImportsSecret(f, held, v))
    && (e.source.None? <==> Absent(f, defs))
    && (e.source.Some? ==> exists v :: Gives(f, defs, e.source.value, v))
  }

  lemma EntryIsDecided(reg: Registry, f: Field, v: set<string>, ks: set<string>, m: Sources, defs: seq<Definition>)
    requires HoldsFirst(m, defs)
    ensures Decided(reg, f, defs, v + ks, EntryOf(reg, f, v, ks, m))
  {
    hide HoldsFirst, FirstDefined, Gives, Absent, Trim, EnvNames;
    LookupGives(f, m, defs);
    var e := EntryOf(reg, f, v, ks, m);
    if e.source.Some? {
      var name := e.source.value;
      assert Gives(f, defs, name, m[name].value);
    }
  }

  /**
   The inventory succeeds exactly for an accepted registry, a loadable managed file and readable
   dotenv files, and then decides every field, in the registry's order. A field is invalid when it
   is neither absent, restricted or held nor to be imported.
   */
  lemma InventoryDecides(reg: Registry, file: ManagedFile, secrets: set<string>, files: seq<DotenvFile>)
    ensures var r := Plan(reg, file, secrets, files);
      && (r.Ok? <==> Accepted(reg.fields) && Load(reg, file).Some? && forall i :: 0 <= i < |files| ==> Readable(files[i]))
      && (r.Err? ==> (r.error == IoError <==> && Accepted(reg.fields) && Load(reg, file).Some?
                                              && exists i: nat :: FirstBad(files, i) && files[i].Unreadable?))
      && (r.Ok? ==>
            && |r.value| == |reg.fields|
            && forall k :: 0 <= k < |r.value| ==>
                 Decided(reg, reg.fields[k], Definitions(files), Load(reg, file).value.Keys + secrets, r.value[k]))
  {
    hide LoadDotenv, HoldsFirst, EntryOf, Decided, Accepted, Load;
    LoadDotenvMeaning(files);
    FirstBadFileDecides(files);
    forall i: nat, j: nat | FirstBad(files, i) && FirstBad(files, j)
      ensures i == j
    {
      OnlyOneIsFirstBad(files, i, j);
    }
    if Plan(reg, file, secrets, files).Ok? {
      var values := Load(reg, file).value;
      forall k | 0 <= k < |reg.fields|
        ensures Decided(reg, reg.fields[k], Definitions(files), values.Keys + secrets,
                        EntryOf(reg, reg.fields[k], values.Keys, secrets, LoadDotenv(files).value))
      {
        EntryIsDecided(reg, reg.fields[k], values.Keys, secrets, LoadDotenv(files).value, Definitions(files));
      }
    }
  }

  // ----- A finished migration -----

  /** What a finished run leaves: the old values, and a new one for exactly the fields to import. */
  ghost predicate Imported(reg: Registry, before: Values, after: Values, held: set<string>, defs: seq<Definition>) {
    && (forall x :: x in before ==> x in after && after[x] == before[x])
    && (forall x :: x in after && x !in before ==> exists k :: 0 <= k < |reg.fields| && reg.fields[k].key == x)
    && (forall k :: 0 <= k < |reg.fields| && reg.fields[k].key !in before ==>
          var f := reg.fields[k];
          && (f.key in after <==> exists n, v :: Gives(f, defs, n, v) && ImportsPublic(reg, f, held, v))
          && (f.key in after ==>
                forall n, v :: Gives(f, defs, n, v) ==> reg.parse(f, v) == Some(after[f.key])))
  }

  ghost predicate ImportedSecrets(reg: Registry, before: map<string, string>, after: map<string, string>,
      held: set<string>, defs: seq<Definition>) {
    && (forall x :: x in before ==> x in after && after[x] == before[x])
    && (forall x :: x in after && x !in before ==> exists k :: 0 <= k < |reg.fields| && reg.fields[k].key == x)
    && (forall k :: 0 <= k < |reg.fields| && reg.fields[k].key !in before ==>
          var f := reg.fields[k];
          && (f.key in after <==> exists n, v :: Gives(f, defs, n, v) && ImportsSecret(f, held, v))
          && (f.key in after ==> forall n, v :: Gives(f, defs, n, v) ==> v == after[f.key]))
  }

  lemma ActIsDecided(reg: Registry, v: set<string>, ks: set<string>, m: Sources, defs: seq<Definition>, k: nat)
    requires HoldsFirst(m, defs) && k < |reg.fields|
    ensures var f, held := reg.fields[k], v + ks;
      && (Act(reg, v, ks, m, k) == ImportManaged
          <==> exists n, x :: Gives(f, defs, n, x) && ImportsPublic(reg, f, held, x))
      && (Act(reg, v, ks, m, k) == ImportSecret <==> exists n, x :: Gives(f, defs, n, x) && ImportsSecret(f, held, x))
      && (Act(reg, v, ks, m, k) != NotPresent ==> forall n, x :: Gives(f, defs, n, x) ==> x == Raw(reg, m, k))
  {
    hide HoldsFirst, FirstDefined, Gives, Absent, Trim, EnvNames, ImportsPublic, ImportsSecret;
    EntryIsDecided(reg, reg.fields[k], v, ks, m, defs);
    LookupGives(reg.fields[k], m, defs);
  }

  lemma FilledIsImported(reg: Registry, values: Values, filled: Values, ks: set<string>, m: Sources,
      defs: seq<Definition>)
    requires HoldsFirst(m, defs) && DistinctKeys(reg.fields)
    requires FillsGaps(reg, values, filled, ks, m, |reg.fields|)
    ensures Imported(reg, values, filled, values.Keys + ks, defs)
  {
    hide HoldsFirst, Gives, ImportsPublic, Act, Raw, ReadValue;
    forall k | 0 <= k < |reg.fields| && reg.fields[k].key !in values
      ensures var f := reg.fields[k];
        && (f.key in filled <==> exists n, v :: Gives(f, defs, n, v) && ImportsPublic(reg, f, values.Keys + ks, v))
        && (f.key in filled ==> forall n, v :: Gives(f, defs, n, v) ==> reg.parse(f, v) == Some(filled[f.key]))
    {
      ActIsDecided(reg, values.Keys, ks, m, defs, k);
      ActFacts(reg, values.Keys, ks, m, k);
    }
  }

  lemma StoredIsImported(reg: Registry, secrets: map<string, string>, after: map<string, string>, v: set<string>,
      m: Sources, defs: seq<Definition>)
    requires HoldsFirst(m, defs) && DistinctKeys(reg.fields)
    requires FillsSecretGaps(reg, secrets, after, v, m, |reg.fields|)
    ensures ImportedSecrets(reg, secrets, after, v + secrets.Keys, defs)
  {
    hide HoldsFirst, Gives, ImportsSecret, Act, Raw;
    forall k | 0 <= k < |reg.fields| && reg.fields[k].key !in secrets
      ensures var f := reg.fields[k];
        && (f.key in after <==> exists n, x :: Gives(f, defs, n, x) && ImportsSecret(f, v + secrets.Keys, x))
        && (f.key in after ==> forall n, x :: Gives(f, defs, n, x) ==> x == after[f.key])
    {
      ActIsDecided(reg, v, secrets.Keys, m, defs, k);
    }
  }

  /**
   After a finished migration a key is in the managed file, or in the secret store, exactly when it
   was there before or its field was to be imported, and then with the value the files give it.
   */
  lemma FinishedRunImports(reg: Registry, s: Stores, files: seq<DotenvFile>)
    requires Apply(reg, s, files, NoFault).1.Finished?
    ensures Load(reg, s.managed).Some?
    ensures var (s', p), values := Apply(reg, s, files, NoFault), Load(reg, s.managed).value;
      var held, defs := values.Keys + s.secrets.Keys, Definitions(files);
      && Load(reg, s'.managed).Some? && Imported(reg, values, Load(reg, s'.managed).value, held, defs)
      && ImportedSecrets(reg, s.secrets, s'.secrets, held, defs)
  {
    hide LoadDotenv, Apply, Load, HoldsFirst, FillsGaps, FillsSecretGaps, Imported, ImportedSecrets, SecretsStorable;
    ApplySucceedsIff(reg, s, files);
    CheckPassesIffReady(reg, s, files);
    var values, m := Load(reg, s.managed).value, LoadDotenv(files).value;
    LoadDotenvMeaning(files);
    ApplyFillsExactlyTheGaps(reg, s, files, values, m);
    var s' := Apply(reg, s, files, NoFault).0;
    FilledIsImported(reg, values, Load(reg, s'.managed).value, s.secrets.Keys, m, Definitions(files));
    StoredIsImported(reg, s.secrets, s'.secrets, values.Keys, m, Definitions(files));
  }

  // ----- The report -----

  lemma {:induction false} FilledGrows(reg: Registry, values: Values, ks: set<string>, m: Sources, n: nat)
    requires n <= |reg.fields| && DistinctKeys(reg.fields)
    ensures |Filled(reg, values, ks, m, n)| == |values| + |ManagedUpTo(reg, values.Keys, ks, m, n)|
  {
    hide Act, ReadValue;
    if n > 0 {
      FilledGrows(reg, values, ks, m, n - 1);
      ActFacts(reg, values.Keys, ks, m, n - 1);
      FilledFillsGaps(reg, values, ks, m, n - 1);
    }
  }

  lemma {:induction false} StoredGrow(secrets: map<string, string>, changes: seq<SecretChange>)
    requires forall i, j :: 0 <= i < j < |changes| ==> changes[i].key != changes[j].key
    requires forall i :: 0 <= i < |changes| ==> changes[i].key !in secrets
    ensures |WithSecrets(secrets, changes)| == |secrets| + |changes|
    decreases |changes|
  {
    if changes != [] {
      var rest := changes[..|changes| - 1];
      StoredGrow(secrets, rest);
      StoredKeys(secrets, rest, changes[|changes| - 1].key);
    }
  }

  lemma FileHolds(reg: Registry, s: Stores, values: Values, m: Sources)
    requires Accepted(reg.fields) && Load(reg, s.managed) == Some(values)
    ensures FileAfter(reg, s, values, m).Document?
    ensures Load(reg, FileAfter(reg, s, values, m)) == Some(Filled(reg, values, s.secrets.Keys, m, |reg.fields|))
  {
    hide Act, ReadValue, AllValid, Distinct;
    var n := |reg.fields|;
    NothingIsInvalid(reg);
    ChangedIsFilled(reg, values, s.secrets.Keys, m, n);
    assert ManagedUpTo(reg, values.Keys, s.secrets.Keys, m, n) == [] ==>
        Changed(reg, values, []) == Some(Filled(reg, values, s.secrets.Keys, m, n));
  }

  lemma NothingIsInvalid(reg: Registry)
    ensures AllValid(reg, map[])
  {
  }

  /**
   A finished run leaves a managed file, and reports the number of values and secrets that it added
   and of the fields that it left alone.
   */
  lemma ReportCountsWhatWasAdded(reg: Registry, s: Stores, files: seq<DotenvFile>)
    requires Apply(reg, s, files, NoFault).1.Finished?
    ensures var (s', p) := Apply(reg, s, files, NoFault);
      && s'.managed.Document? && Load(reg, s.managed).Some? && Load(reg, s'.managed).Some?
      && p.report.managedImported == |Load(reg, s'.managed).value| - |Load(reg, s.managed).value|
      && p.report.secretsImported == |s'.secrets| - |s.secrets|
      && p.report.managedImported + p.report.secretsImported + p.report.leftAlone == |reg.fields|
  {
    hide LoadDotenv, Apply, Load, FileAfter, SecretsUpTo, ManagedUpTo, Filled, SecretsStorable, Distinct;
    ApplySucceedsIff(reg, s, files);
    CheckPassesIffReady(reg, s, files);
    var values, m, n := Load(reg, s.managed).value, LoadDotenv(files).value, |reg.fields|;
    ApplyShape(reg, s, files, values, m, NoFault);
    FileHolds(reg, s, values, m);
    FilledGrows(reg, values, s.secrets.Keys, m, n);
    SecretsAreFree(reg, s.secrets, values.Keys, m);
    StoredGrow(s.secrets, SecretsUpTo(reg, values.Keys, s.secrets.Keys, m, n));
  }

  lemma NotCheckedFails(reg: Registry, s: Stores, files: seq<DotenvFile>)
    requires !Check(reg, s.managed, s.secrets.Keys, files).Checked?
    ensures var r := Plan(reg, s.managed, s.secrets.Keys, files);
      Apply(reg, s, files, NoFault) == (s, Failed(if r.Err? then r.error else InvalidInput))
  {
    hide LoadDotenv, Plan, HasInvalid;
  }

  /**
   An undisturbed run that does not finish fails for its input, unless a dotenv file could not be
   read: the first bad one, with a registry and a managed file that are in order.
   */
  lemma FailureKind(reg: Registry, s: Stores, files: seq<DotenvFile>)
    requires !Apply(reg, s, files, NoFault).1.Finished?
    ensures Apply(reg, s, files, NoFault).1
         == Failed(if && Accepted(reg.fields) && Load(reg, s.managed).Some?
                      && exists i: nat :: FirstBad(files, i) && files[i].Unreadable?
                   then IoError else InvalidInput)
  {
    hide LoadDotenv, Apply, Load, Accepted, SecretsStorable, HasInvalid, FirstBad;
    InventoryDecides(reg, s.managed, s.secrets.Keys, files);
    if Check(reg, s.managed, s.secrets.Keys, files).Checked? {
      CheckPassesIffReady(reg, s, files);
      ApplyShape(reg, s, files, Load(reg, s.managed).value, LoadDotenv(files).value, NoFault);
      ReadableHasNoBad(files);
    } else {
      NotCheckedFails(reg, s, files);
      if Plan(reg, s.managed, s.secrets.Keys, files).Ok? {
        ReadableHasNoBad(files);
      }
    }
  }

  lemma ReadableHasNoBad(files: seq<DotenvFile>)
    ensures (forall i :: 0 <= i < |files| ==> Readable(files[i])) ==> forall i: nat :: !FirstBad(files, i)
  {
  }

  /** A managed file loads unless it is corrupt or holds a value for anything but a public, editable field that admits it. */
  lemma LoadIff(reg: Registry, file: ManagedFile)
    requires DistinctKeys(reg.fields)
    ensures Load(reg, file).Some? <==>
              || file.Missing?
              || (file.Document? && forall x :: x in file.values ==> HoldsFor(reg, x, file.values[x]))
    ensures Load(reg, file).Some? ==> Load(reg, file).value == if file.Missing? then map[] else file.values
  {
    hide Require, HoldsFor;
    if file.Document? {
      forall x | x in file.values
        ensures HoldsFor(reg, x, file.values[x])
           <==> Require(reg.fields, x).Some? && ValidManaged(reg, Require(reg.fields, x).value, file.values[x])
      {
        HoldsForIff(reg, x, file.values[x]);
      }
    }
  }

  ghost predicate HoldsFor(reg: Registry, key: string, v: TomlValue) {
    exists k :: 0 <= k < |reg.fields| && reg.fields[k].key == key && reg.fields[k].sensitivity == Public
                && reg.fields[k].webEditable && reg.admits(reg.fields[k], v)
  }

  lemma {:induction false} RequireIs(fields: seq<Field>, key: string)
    ensures Require(fields, key).Some? ==>
              exists k :: 0 <= k < |fields| && fields[k] == Require(fields, key).value && fields[k].key == key
  {
    if fields != [] && fields[0].key != key {
      RequireIs(fields[1..], key);
      if Require(fields[1..], key).Some? {
        var k :| 0 <= k < |fields[1..]| && fields[1..][k] == Require(fields[1..], key).value && fields[1..][k].key == key;
        assert fields[k + 1] == fields[1..][k];
      }
    }
  }

  lemma HoldsForIff(reg: Registry, key: string, v: TomlValue)
    requires DistinctKeys(reg.fields)
    ensures HoldsFor(reg, key, v)
       <==> Require(reg.fields, key).Some? && ValidManaged(reg, Require(reg.fields, key).value, v)
  {
    hide Require;
    RequireIs(reg.fields, key);
    if HoldsFor(reg, key, v) {
      var k :| 0 <= k < |reg.fields| && reg.fields[k].key == key && reg.fields[k].sensitivity == Public
               && reg.fields[k].webEditable && reg.admits(reg.fields[k], v);
      RequireFinds(reg.fields, k);
    }
  }

  /** A run whose inventory is out of date changes nothing: neither a file of another revision nor a key taken meanwhile. */
  lemma StaleRunWritesNothing(reg: Registry, s: Stores, p: Phase)
    ensures p.Prepared? && p.changes.managed != [] && s.managed != p.revision
        ==> WriteFile(reg, s, p) == (s, Failed(InvalidInput))
    ensures p.FileWritten? && (exists k :: 0 <= k < |p.changes.secrets| && p.changes.secrets[k].key in s.secrets)
        ==> WriteSecrets(reg, s, p) == (s, Failed(InvalidInput))
  {
    hide Load, MayStoreAll, WithSecrets;
  }

  /** Whoever spoils the managed file, at whatever point of a run: the next step that needs it fails and writes nothing. */
  lemma BrokenFileStops(reg: Registry, s: Stores, p: Phase, files: seq<DotenvFile>, again: seq<DotenvFile>)
    requires Load(reg, s.managed).None?
    ensures Check(reg, s.managed, s.secrets.Keys, files) == Failed(InvalidInput)
    ensures AfterOpen(reg, s.managed) == Failed(InvalidInput)
    ensures Prepare(reg, s.managed, s.secrets.Keys, files, again) == Failed(InvalidInput)
    ensures p.Prepared? && p.changes.managed != [] ==> WriteFile(reg, s, p) == (s, Failed(InvalidInput))
    ensures p.FileWritten? && p.changes.secrets != [] ==> WriteSecrets(reg, s, p) == (s, Failed(InvalidInput))
  {
    hide LoadDotenv, Load, Accepted, UpdatedSecrets;
  }

  /** The placeholders by which the console masks a secret are never stored as one. */
  lemma PlaceholdersAreRefused(fields: seq<Field>, c: SecretChange)
    requires Require(fields, c.key).Some?
    ensures MayStore(fields, c) <==>
              && Require(fields, c.key).value.sensitivity == Secret && Require(fields, c.key).value.webEditable
              && Trim(c.value) != "" && Trim(c.value) != "********"
              && Trim(c.value) != "\U{2022}\U{2022}\U{2022}\U{2022}\U{2022}\U{2022}\U{2022}\U{2022}"
              && Trim(c.value) != "<redacted>" && Trim(c.value) != "[redacted]" && Trim(c.value) != "__UNCHANGED__"
  {
    hide Trim;
  }
}
