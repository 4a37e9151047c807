/** The registry of tools a model may call, and the schema list it sends to the provider. */
module ToolRegistry {
  import opened Wrappers
  import opened Characters
  import opened JsonText
  import opened CanonicalJson

  const MAX_NAME_LENGTH := 64

  /** What the model is told about a tool. */
  datatype ToolMetadata = ToolMetadata(name: string, description: string, parameters: Json)

  /** A registered tool: its metadata and the identity of the shared instance. */
  datatype Tool = Tool(metadata: ToolMetadata, instance: nat)

  datatype RegistryError =
    | InvalidName(name: string) | DuplicateTool(name: string) | UnregisteredTool(name: string) | ToolNotFound(name: string)

  predicate IsNameCharacter(c: char) { IsAsciiAlphanumeric(c) || c == '_' || c == '-' }

  predicate ValidName(name: string) {
    name != "" && |name| <= MAX_NAME_LENGTH && forall k :: 0 <= k < |name| ==> IsNameCharacter(name[k])
  }

  /** A name is 1 to 64 ASCII letters, digits, underscores and hyphens. */
  lemma ValidNameMeaning(name: string)
    ensures ValidName(name) <==>
              && 1 <= |name| <= 64
              && forall k :: 0 <= k < |name| ==>
                   || 'a' <= name[k] <= 'z' || 'A' <= name[k] <= 'Z' || '0' <= name[k] <= '9'
                   || name[k] == '_' || name[k] == '-'
  {
  }

  function ToolName(tool: Tool): string { tool.metadata.name }

  function MetadataName(m: ToolMetadata): string { m.name }

  // ----- Registering -----

  /** The table after registering one more tool. */
  function Inserted(tools: map<string, Tool>, tool: Tool): Result<map<string, Tool>, RegistryError> {
    if !ValidName(ToolName(tool)) then Err(InvalidName(ToolName(tool)))
    else if ToolName(tool) in tools then Err(DuplicateTool(ToolName(tool)))
    else Ok(tools[ToolName(tool) := tool])
  }

  /** The table after a chain of registrations, or the first error. */
  function RegisterAll(ts: seq<Tool>): Result<map<string, Tool>, RegistryError> {
    if ts == [] then Ok(map[])
    else match RegisterAll(ts[..|ts| - 1])
      case Err(e) => Err(e)
      case Ok(tools) => Inserted(tools, ts[|ts| - 1])
  }

  ghost predicate AllRegistrable(ts: seq<Tool>) {
    (forall k :: 0 <= k < |ts| ==> ValidName(ToolName(ts[k]))) && DistinctBy(ToolName, ts)
  }

  /** The table holds exactly these tools, each under its own name. */
  ghost predicate Holds(tools: map<string, Tool>, ts: seq<Tool>) {
    && (forall k :: 0 <= k < |ts| ==> ToolName(ts[k]) in tools && tools[ToolName(ts[k])] == ts[k])
    && (forall n :: n in tools ==> tools[n] in ts && ToolName(tools[n]) == n)
  }

  ghost function NameSet(ts: seq<Tool>): set<string> {
    set k | 0 <= k < |ts| :: ToolName(ts[k])
  }

  lemma OneMoreTool(rest: seq<Tool>, last: Tool)
    ensures NameSet(rest + [last]) == NameSet(rest) + {ToolName(last)}
    ensures DistinctBy(ToolName, rest + [last]) <==> DistinctBy(ToolName, rest) && ToolName(last) !in NameSet(rest)
  {
    var ts := rest + [last];
    assert ts[|rest|] == last;
    forall k | 0 <= k < |rest|
      ensures rest[k] == ts[k] && ToolName(rest[k]) in NameSet(ts)
    {
    }
    if DistinctBy(ToolName, rest) && ToolName(last) !in NameSet(rest) {
      forall i, j | 0 <= i < j < |ts|
        ensures ToolName(ts[i]) != ToolName(ts[j])
      {
        assert ToolName(ts[i]) == ToolName(rest[i]) && ToolName(rest[i]) in NameSet(rest);
      }
    }
    if ToolName(last) in NameSet(rest) {
      var k :| 0 <= k < |rest| && ToolName(rest[k]) == ToolName(last);
      assert ToolName(ts[k]) == ToolName(ts[|rest|]);
    }
    if !DistinctBy(ToolName, rest) {
      var i, j :| 0 <= i < j < |rest| && ToolName(rest[i]) == ToolName(rest[j]);
      assert ToolName(ts[i]) == ToolName(ts[j]);
    }
  }

  /** A chain of registrations succeeds exactly for distinct valid names, and then holds exactly those tools. */
  lemma {:induction false} RegisterAllMeaning(ts: seq<Tool>)
    ensures RegisterAll(ts).Ok? <==> AllRegistrable(ts)
    ensures RegisterAll(ts).Ok? ==> Holds(RegisterAll(ts).value, ts)
  {
    hide ValidName;
    if ts != [] {
      var rest, last := ts[..|ts| - 1], ts[|ts| - 1];
      assert ts == rest + [last];
      RegisterAllMeaning(rest);
      OneMoreTool(rest, last);
      assert AllRegistrable(ts) <==> AllRegistrable(rest) && ValidName(ToolName(last)) && ToolName(last) !in NameSet(rest) by {
        assert ts[|rest|] == last && forall k :: 0 <= k < |rest| ==> rest[k] == ts[k];
      }
      if RegisterAll(rest).Ok? {
        HoldsNames(RegisterAll(rest).value, rest);
        if RegisterAll(ts).Ok? {
          HoldsOneMore(rest, last, RegisterAll(rest).value);
        }
      }
    }
  }

  lemma HoldsNames(tools: map<string, Tool>, ts: seq<Tool>)
    requires Holds(tools, ts)
    ensures NameSet(ts) == tools.Keys
  {
    forall n | n in tools
      ensures n in NameSet(ts)
    {
      assert tools[n] in ts;
    }
  }

  lemma HoldsOneMore(rest: seq<Tool>, last: Tool, tools: map<string, Tool>)
    requires Holds(tools, rest) && Inserted(tools, last).Ok?
    ensures Holds(Inserted(tools, last).value, rest + [last])
  {
    hide ValidName;
    var ts, grown := rest + [last], Inserted(tools, last).value;
    forall n | n in grown
      ensures grown[n] in ts
    {
      assert ts[|rest|] == last;
      assert n != ToolName(last) ==> grown[n] in rest;
    }
  }

  // ----- The schema list -----

  function MetadataOf(tool: Tool): ToolMetadata {
    tool.metadata.(parameters := Canonical(tool.metadata.parameters))
  }

  /** `items` lists the table's tools in name order, their parameters in canonical form. */
  ghost predicate IsMetadataList(tools: map<string, Tool>, items: seq<ToolMetadata>) {
    && SortedBy(MetadataName, items)
    && (forall k :: 0 <= k < |items| ==> items[k].name in tools && items[k] == MetadataOf(tools[items[k].name]))
    && (forall n :: n in tools ==> MetadataOf(tools[n]) in items)
  }

  /** One entry of the schema list; the map behind it prints its members in key order. */
  function SchemaEntry(m: ToolMetadata): Json {
    JObject([Member("description", JString(m.description)), Member("name", JString(m.name)), Member("parameters", m.parameters)])
  }

  function SchemaList(items: seq<ToolMetadata>): Json {
    JArray(seq(|items|, k requires 0 <= k < |items| => SchemaEntry(items[k])))
  }

  /** The value of the first member with this name. */
  function Lookup(members: seq<Member>, name: string): Json {
    if members == [] then JNull else if members[0].name == name then members[0].value else Lookup(members[1..], name)
  }

  /** The list has one object for each tool, in their order, with exactly its name, description and parameters. */
  lemma SchemaListTellsAll(items: seq<ToolMetadata>, k: nat)
    requires k < |items|
    ensures SchemaList(items).JArray? && |SchemaList(items).items| == |items|
    ensures var entry := SchemaList(items).items[k];
      && entry.JObject? && |entry.members| == 3
      && Lookup(entry.members, "name") == JString(items[k].name)
      && Lookup(entry.members, "description") == JString(items[k].description)
      && Lookup(entry.members, "parameters") == items[k].parameters
  {
    var members := SchemaEntry(items[k]).members;
    assert Lookup(members[2..], "parameters") == members[2].value;
    assert Lookup(members[1..], "parameters") == Lookup(members[1..][1..], "parameters");
    assert members[1..][1..] == members[2..];
  }

  ghost predicate Keyed(tools: map<string, Tool>) {
    forall n :: n in tools ==> ValidName(n) && ToolName(tools[n]) == n && WellFormed(tools[n].metadata.parameters)
  }

  /** The two tables tell the model the same thing, up to the order of members inside parameters. */
  ghost predicate SameSchema(a: map<string, Tool>, b: map<string, Tool>) {
    && a.Keys == b.Keys
    && forall n :: n in a ==>
         && a[n].metadata.description == b[n].metadata.description
         && SameUpToOrder(a[n].metadata.parameters, b[n].metadata.parameters)
  }

  lemma SameMetadata(s: Tool, t: Tool)
    requires WellFormed(s.metadata.parameters) && WellFormed(t.metadata.parameters)
    ensures MetadataOf(s) == MetadataOf(t) <==>
            && ToolName(s) == ToolName(t) && s.metadata.description == t.metadata.description
            && SameUpToOrder(s.metadata.parameters, t.metadata.parameters)
  {
    CanonicalIffSameUpToOrder(s.metadata.parameters, t.metadata.parameters);
  }

  /** The schema list determines, and is determined by, what the tools say up to member order. */
  lemma SchemaListIffSameSchema(a: map<string, Tool>, b: map<string, Tool>, xs: seq<ToolMetadata>,
      ys: seq<ToolMetadata>)
    requires Keyed(a) && Keyed(b) && IsMetadataList(a, xs) && IsMetadataList(b, ys)
    ensures SchemaList(xs) == SchemaList(ys) <==> SameSchema(a, b)
  {
    hide WellFormed, SameUpToOrder, Canonical, IsMetadataList, Keyed, SchemaList;
    SchemaListIsInjective(xs, ys);
    if xs == ys {
      ListDeterminesTools(a, b, xs);
      ListDeterminesTools(b, a, xs);
    }
    if SameSchema(a, b) {
      ToolsDetermineList(a, b, xs, ys);
    }
  }

  lemma SchemaListIsInjective(xs: seq<ToolMetadata>, ys: seq<ToolMetadata>)
    ensures SchemaList(xs) == SchemaList(ys) <==> xs == ys
  {
    if SchemaList(xs) == SchemaList(ys) {
      var sx, sy := SchemaList(xs).items, SchemaList(ys).items;
      assert |sx| == |xs| && |sy| == |ys|;
      forall k | 0 <= k < |xs|
        ensures xs[k] == ys[k]
      {
        assert sx[k] == SchemaEntry(xs[k]) && sy[k] == SchemaEntry(ys[k]);
        assert sx[k].members[0] == sy[k].members[0] && sx[k].members[1] == sy[k].members[1] && sx[k].members[2] == sy[k].members[2];
      }
    }
  }

  lemma ListDeterminesTools(a: map<string, Tool>, b: map<string, Tool>, xs: seq<ToolMetadata>)
    requires Keyed(a) && Keyed(b) && IsMetadataList(a, xs) && IsMetadataList(b, xs)
    ensures forall n :: n in a ==>
              && n in b && a[n].metadata.description == b[n].metadata.description
              && SameUpToOrder(a[n].metadata.parameters, b[n].metadata.parameters)
  {
    hide WellFormed, SameUpToOrder, Canonical, SortedBy;
    forall n | n in a
      ensures n in b && a[n].metadata.description == b[n].metadata.description
      ensures SameUpToOrder(a[n].metadata.parameters, b[n].metadata.parameters)
    {
      assert MetadataOf(a[n]) in xs;
      assert MetadataOf(a[n]) == MetadataOf(b[n]);
      SameMetadata(a[n], b[n]);
    }
  }

  lemma ToolsDetermineList(a: map<string, Tool>, b: map<string, Tool>, xs: seq<ToolMetadata>, ys: seq<ToolMetadata>)
    requires Keyed(a) && Keyed(b) && SameSchema(a, b) && IsMetadataList(a, xs) && IsMetadataList(b, ys)
    ensures xs == ys
  {
    hide WellFormed, SameUpToOrder, Canonical, IsMetadataList;
    forall n | n in a
      ensures n in b && MetadataOf(a[n]) == MetadataOf(b[n])
    {
      assert n in b.Keys;
      SameMetadata(a[n], b[n]);
    }
    SameMetadataSameList(a, b, xs, ys);
  }

  lemma SameMetadataSameList(a: map<string, Tool>, b: map<string, Tool>, xs: seq<ToolMetadata>, ys: seq<ToolMetadata>)
    requires a.Keys == b.Keys && forall n :: n in a ==> MetadataOf(a[n]) == MetadataOf(b[n])
    requires IsMetadataList(a, xs) && IsMetadataList(b, ys)
    ensures xs == ys
  {
    hide MetadataOf, SortedBy;
    forall k | 0 <= k < |xs|
      ensures xs[k] in ys
    {
      assert xs[k].name in a.Keys;
      assert MetadataOf(b[xs[k].name]) in ys;
    }
    forall k | 0 <= k < |ys|
      ensures ys[k] in xs
    {
      assert ys[k].name in b.Keys;
      assert MetadataOf(a[ys[k].name]) in xs;
    }
    SortedIsUnique(MetadataName, xs, ys);
  }

  // ----- Registration order -----

  ghost predicate Permuted(ts: seq<Tool>, us: seq<Tool>) { multiset(ts) == multiset(us) }

  lemma PermutedHasSameTools(ts: seq<Tool>, us: seq<Tool>)
    requires Permuted(ts, us)
    ensures |ts| == |us| && forall t :: t in ts <==> t in us
  {
    assert |multiset(ts)| == |multiset(us)|;
    forall t
      ensures t in ts <==> t in us
    {
      assert t in multiset(ts) <==> t in multiset(us);
    }
  }

  /** Names are distinct exactly when there are as many as tools. */
  lemma {:induction false} DistinctIffCounted(ts: seq<Tool>)
    ensures |NameSet(ts)| <= |ts|
    ensures DistinctBy(ToolName, ts) <==> |NameSet(ts)| == |ts|
  {
    if ts == [] {
      assert NameSet(ts) == {};
    } else {
      var rest, last := ts[..|ts| - 1], ts[|ts| - 1];
      assert ts == rest + [last];
      DistinctIffCounted(rest);
      OneMoreTool(rest, last);
    }
  }

  lemma PermutedIsRegistrable(ts: seq<Tool>, us: seq<Tool>)
    requires Permuted(ts, us) && AllRegistrable(ts)
    ensures AllRegistrable(us)
  {
    PermutedHasSameTools(ts, us);
    DistinctIffCounted(ts);
    DistinctIffCounted(us);
    assert NameSet(ts) == NameSet(us) by {
      forall k | 0 <= k < |ts|
        ensures ToolName(ts[k]) in NameSet(us)
      {
        assert ts[k] in us;
      }
      forall k | 0 <= k < |us|
        ensures ToolName(us[k]) in NameSet(ts)
      {
        assert us[k] in ts;
      }
    }
    forall k | 0 <= k < |us|
      ensures ValidName(ToolName(us[k]))
    {
      assert us[k] in ts;
    }
  }

  /** Every order of the same registrations fails, or every order yields the same table. */
  lemma RegistrationOrderDoesNotMatter(ts: seq<Tool>, us: seq<Tool>)
    requires Permuted(ts, us)
    ensures RegisterAll(ts).Ok? <==> RegisterAll(us).Ok?
    ensures RegisterAll(ts).Ok? ==> RegisterAll(ts) == RegisterAll(us)
  {
    RegisterAllMeaning(ts);
    RegisterAllMeaning(us);
    if RegisterAll(ts).Ok? {
      PermutedIsRegistrable(ts, us);
      SameToolsSameTable(ts, us, RegisterAll(ts).value, RegisterAll(us).value);
    }
    if RegisterAll(us).Ok? {
      PermutedIsRegistrable(us, ts);
    }
  }

  lemma SameToolsSameTable(ts: seq<Tool>, us: seq<Tool>, a: map<string, Tool>, b: map<string, Tool>)
    requires Permuted(ts, us) && Holds(a, ts) && Holds(b, us)
    ensures a == b
  {
    PermutedHasSameTools(ts, us);
    forall n | n in a
      ensures n in b && a[n] == b[n]
    {
      assert a[n] in us;
    }
    forall n | n in b
      ensures n in a
    {
      assert b[n] in ts;
    }
  }

  /** The schema list is the same for every registration order of the same tools. */
  lemma SchemaIgnoresRegistrationOrder(ts: seq<Tool>, us: seq<Tool>, xs: seq<ToolMetadata>, ys: seq<ToolMetadata>)
    requires Permuted(ts, us) && RegisterAll(ts).Ok?
    requires RegisterAll(us).Ok? ==> IsMetadataList(RegisterAll(us).value, ys)
    requires IsMetadataList(RegisterAll(ts).value, xs)
    ensures RegisterAll(us).Ok? && SchemaList(xs) == SchemaList(ys)
  {
    hide RegisterAll, IsMetadataList;
    RegistrationOrderDoesNotMatter(ts, us);
    SameMetadataSameList(RegisterAll(ts).value, RegisterAll(us).value, xs, ys);
  }

  // ----- Collecting and sorting -----

  function SortByName(items: seq<ToolMetadata>): seq<ToolMetadata> {
    if items == [] then [] else Insert(MetadataName, items[0], SortByName(items[1..]))
  }

  lemma {:induction false} SortByNameMembers(items: seq<ToolMetadata>, x: ToolMetadata)
    ensures x in SortByName(items) <==> x in items
  {
    hide Insert;
    if items != [] {
      InsertMembers(MetadataName, items[0], SortByName(items[1..]), x);
      SortByNameMembers(items[1..], x);
    }
  }

  lemma {:induction false} SortByNameSorts(items: seq<ToolMetadata>)
    requires DistinctBy(MetadataName, items)
    ensures SortedBy(MetadataName, SortByName(items))
  {
    hide Insert;
    if items != [] {
      var rest := items[1..];
      SortByNameSorts(rest);
      var r := SortByName(rest);
      forall k | 0 <= k < |r|
        ensures MetadataName(r[k]) != MetadataName(items[0])
      {
        SortByNameMembers(rest, r[k]);
        var i :| 0 <= i < |rest| && rest[i] == r[k];
        assert MetadataName(items[0]) != MetadataName(items[i + 1]);
      }
      InsertSorts(MetadataName, items[0], r);
    }
  }

  /** `collected` holds the metadata of exactly the tools named in `done`, in some order, once each. */
  ghost predicate Lists(tools: map<string, Tool>, done: set<string>, collected: seq<ToolMetadata>) {
    && done <= tools.Keys
    && (forall k :: 0 <= k < |collected| ==>
          collected[k].name in done && collected[k] == MetadataOf(tools[collected[k].name]))
    && DistinctBy(MetadataName, collected)
    && (forall n :: n in done ==> MetadataOf(tools[n]) in collected)
  }

  lemma ListsOneMore(tools: map<string, Tool>, done: set<string>, collected: seq<ToolMetadata>, name: string)
    requires Lists(tools, done, collected) && name in tools && name !in done && ToolName(tools[name]) == name
    ensures Lists(tools, done + {name}, collected + [MetadataOf(tools[name])])
  {
    var grown := collected + [MetadataOf(tools[name])];
    assert grown[|collected|] == MetadataOf(tools[name]);
    forall i, j | 0 <= i < j < |grown|
      ensures MetadataName(grown[i]) != MetadataName(grown[j])
    {
      assert grown[i] == collected[i];
      if j < |collected| {
        assert MetadataName(collected[i]) != MetadataName(collected[j]);
      }
    }
    forall n | n in done + {name}
      ensures MetadataOf(tools[n]) in grown
    {
      if n in done {
        assert MetadataOf(tools[n]) in collected;
      }
    }
  }

  lemma SortedListIsMetadata(tools: map<string, Tool>, collected: seq<ToolMetadata>)
    requires Lists(tools, tools.Keys, collected)
    ensures IsMetadataList(tools, SortByName(collected))
  {
    hide SortByName, SortedBy, DistinctBy, MetadataOf;
    SortByNameSorts(collected);
    var items := SortByName(collected);
    forall k | 0 <= k < |items|
      ensures items[k].name in tools && items[k] == MetadataOf(tools[items[k].name])
    {
      SortByNameMembers(collected, items[k]);
    }
    forall n | n in tools
      ensures MetadataOf(tools[n]) in items
    {
      SortByNameMembers(collected, MetadataOf(tools[n]));
    }
  }

  /** Position `k` holds the first name that `Subset` cannot take, and this is its error. */
  ghost predicate IsFirstBadName(tools: map<string, Tool>, names: seq<string>, k: nat, error: RegistryError)
    requires k < |names|
  {
    && (forall i :: 0 <= i < k ==> names[i] in tools && names[i] !in names[..i])
    && error == (if names[k] !in tools then ToolNotFound(names[k]) else DuplicateTool(names[k]))
    && (names[k] in tools ==> names[k] in names[..k])
  }

  // ----- The registry object -----

  class ToolRegistry {
    var tools: map<string, Tool>
    const timeout: nat
    const outputMaxChars: nat

    ghost predicate Valid()
      reads this
    {
      forall n :: n in tools ==> ValidName(n) && ToolName(tools[n]) == n
    }

    constructor (timeout: nat, outputMaxChars: nat)
      ensures Valid() && tools == map[]
      ensures this.timeout == timeout && this.outputMaxChars == outputMaxChars
    {
      tools := map[];
      this.timeout := timeout;
      this.outputMaxChars := outputMaxChars;
    }

    /** Registers a tool under a new valid name, or reports why not and changes nothing. */
    method Insert(tool: Tool) returns (error: Option<RegistryError>)
      requires Valid()
      modifies this`tools
      ensures Valid()
      ensures match Inserted(old(tools), tool)
              case Ok(grown) => error == None && tools == grown
              case Err(e) => error == Some(e) && tools == old(tools)
    {
      var name := tool.metadata.name;
      if !ValidName(name) {
        return Some(InvalidName(name));
      }
      if name in tools {
        return Some(DuplicateTool(name));
      }
      tools := tools[name := tool];
      return None;
    }

    /** Swaps the instance behind a registered name; never adds a name. */
    method Replace(tool: Tool) returns (error: Option<RegistryError>)
      requires Valid()
      modifies this`tools
      ensures Valid() && tools.Keys == old(tools).Keys
      ensures error == None <==> ToolName(tool) in old(tools)
      ensures error == None ==> tools == old(tools)[ToolName(tool) := tool]
      ensures error != None ==> tools == old(tools)
      ensures error != None ==>
                error.value == if ValidName(ToolName(tool)) then UnregisteredTool(ToolName(tool)) else InvalidName(ToolName(tool))
    {
      var name := tool.metadata.name;
      if !ValidName(name) {
        return Some(InvalidName(name));
      }
      if name !in tools {
        return Some(UnregisteredTool(name));
      }
      tools := tools[name := tool];
      return None;
    }

    /**
     The registry restricted to the named tools, same instances and limits; the first unknown or
     repeated name is an error.
     */
    method Subset(names: seq<string>) returns (r: Result<ToolRegistry, RegistryError>)
      requires Valid()
      ensures r.Ok? <==> (forall k :: 0 <= k < |names| ==> names[k] in tools && names[k] !in names[..k])
      ensures r.Ok? ==>
                && fresh(r.value) && r.value.Valid()
                && r.value.tools == (map n | n in tools && n in names :: tools[n])
                && r.value.timeout == timeout && r.value.outputMaxChars == outputMaxChars
      ensures r.Err? ==> exists k :: 0 <= k < |names| && IsFirstBadName(tools, names, k, r.error)
    {
      var restricted := new ToolRegistry(timeout, outputMaxChars);
      for i := 0 to |names|
        invariant fresh(restricted) && restricted.Valid()
        invariant restricted.timeout == timeout && restricted.outputMaxChars == outputMaxChars
        invariant forall k :: 0 <= k < i ==> names[k] in tools && names[k] !in names[..k]
        invariant restricted.tools == map n | n in tools && n in names[..i] :: tools[n]
      {
        var name := names[i];
        assert names[..i + 1] == names[..i] + [name];
        if name !in tools {
          assert IsFirstBadName(tools, names, i, ToolNotFound(name));
          return Err(ToolNotFound(name));
        }
        var error := restricted.Insert(tools[name]);
        if error.Some? {
          assert IsFirstBadName(tools, names, i, error.value);
          return Err(error.value);
        }
      }
      assert names[..|names|] == names;
      return Ok(restricted);
    }

    /** The schema list of the registered tools, whatever order the table is walked in. */
    method Metadata() returns (items: seq<ToolMetadata>)
      requires Valid()
      ensures IsMetadataList(tools, items)
    {
      var collected: seq<ToolMetadata> := [];
      var remaining := tools.Keys;
      while remaining != {}
        invariant remaining <= tools.Keys
        invariant Lists(tools, tools.Keys - remaining, collected)
      {
        var name :| name in remaining;
        ListsOneMore(tools, tools.Keys - remaining, collected, name);
        remaining := remaining - {name};
        assert tools.Keys - remaining == tools.Keys - (remaining + {name}) + {name};
        collected := collected + [MetadataOf(tools[name])];
      }
      assert tools.Keys - remaining == tools.Keys;
      SortedListIsMetadata(tools, collected);
      items := SortByName(collected);
    }
  }
}
