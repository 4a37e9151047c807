/** The canonical form of a JSON value: object members in name order, at every depth. */
module CanonicalJson {
  import opened JsonText

  // ----- Name order -----

  /** Lexicographic order by Unicode scalar value. */
  predicate Less(a: string, b: string) {
    b != "" && (a == "" || a[0] < b[0] || (a[0] == b[0] && Less(a[1..], b[1..])))
  }

  lemma {:induction false} LessIsTotal(a: string, b: string)
    ensures a == b || Less(a, b) || Less(b, a)
  {
    if a != "" && b != "" && a[0] == b[0] {
      LessIsTotal(a[1..], b[1..]);
      assert a == [a[0]] + a[1..] && b == [b[0]] + b[1..];
    }
  }

  lemma {:induction false} LessIsTransitive(a: string, b: string, c: string)
    requires Less(a, b) && Less(b, c)
    ensures Less(a, c)
  {
    if a != "" && a[0] == b[0] && b[0] == c[0] {
      LessIsTransitive(a[1..], b[1..], c[1..]);
    }
  }

  lemma {:induction false} LessIsIrreflexive(a: string)
    ensures !Less(a, a)
  {
    if a != "" {
      LessIsIrreflexive(a[1..]);
    }
  }

  /** A name comes before its proper extensions, and else the first difference decides. */
  lemma {:induction false} LessMeaning(a: string, b: string)
    ensures Less(a, b) <==>
              || (|a| < |b| && b[..|a|] == a)
              || exists k :: 0 <= k < |a| && k < |b| && a[..k] == b[..k] && a[k] < b[k]
  {
    if a != "" && b != "" {
      if a[0] == b[0] {
        LessMeaning(a[1..], b[1..]);
        assert |a| < |b| ==> (b[..|a|] == a <==> b[1..][..|a[1..]|] == a[1..]);
        if k :| 0 <= k < |a[1..]| && k < |b[1..]| && a[1..][..k] == b[1..][..k] && a[1..][k] < b[1..][k] {
          assert a[..k + 1] == [a[0]] + a[1..][..k] && b[..k + 1] == [b[0]] + b[1..][..k];
          assert a[k + 1] < b[k + 1];
        }
        if k :| 0 <= k < |a| && k < |b| && a[..k] == b[..k] && a[k] < b[k] {
          assert k > 0;
          assert a[1..][..k - 1] == a[..k][1..] && b[1..][..k - 1] == b[..k][1..];
          assert a[1..][k - 1] < b[1..][k - 1];
        }
      } else {
        assert a[..0] == b[..0];
        assert forall k :: 0 < k <= |a| && k <= |b| ==> a[..k][0] == a[0] && b[..k][0] == b[0];
        assert |a| < |b| ==> b[..|a|][0] == b[0];
      }
    }
  }

  // ----- Lists sorted by name -----

  /** Each name comes before all later ones. */
  ghost predicate SortedBy<V>(name: V -> string, s: seq<V>) {
    forall i, j :: 0 <= i < j < |s| ==> Less(name(s[i]), name(s[j]))
  }

  ghost predicate DistinctBy<V>(name: V -> string, s: seq<V>) {
    forall i, j :: 0 <= i < j < |s| ==> name(s[i]) != name(s[j])
  }

  lemma SortedTail<V>(name: V -> string, s: seq<V>)
    requires SortedBy(name, s) && s != []
    ensures SortedBy(name, s[1..]) && s[0] !in s[1..]
    ensures forall m :: m in s[1..] ==> Less(name(s[0]), name(m))
  {
    LessIsIrreflexive(name(s[0]));
  }

  /** Two sorted lists with the same elements are the same list. */
  lemma {:induction false} SortedIsUnique<V>(name: V -> string, a: seq<V>, b: seq<V>)
    requires SortedBy(name, a) && SortedBy(name, b)
    requires forall k :: 0 <= k < |a| ==> a[k] in b
    requires forall k :: 0 <= k < |b| ==> b[k] in a
    ensures a == b
  {
    if a != [] {
      assert a[0] in b;
    }
    if b != [] {
      assert b[0] in a;
    }
    if a != [] {
      SortedTail(name, a);
      SortedTail(name, b);
      SameFirst(name, a, b);
      forall k | 0 <= k < |a[1..]|
        ensures a[1..][k] in b[1..]
      {
        assert a[k + 1] in b && a[k + 1] in a[1..];
      }
      forall k | 0 <= k < |b[1..]|
        ensures b[1..][k] in a[1..]
      {
        assert b[k + 1] in a && b[k + 1] in b[1..];
      }
      SortedIsUnique(name, a[1..], b[1..]);
    }
  }

  lemma SameFirst<V>(name: V -> string, a: seq<V>, b: seq<V>)
    requires a != [] && b != [] && SortedBy(name, a) && SortedBy(name, b) && a[0] in b && b[0] in a
    ensures a[0] == b[0]
  {
    if a[0] != b[0] {
      SortedTail(name, a);
      SortedTail(name, b);
      assert b[0] in a[1..] && a[0] in b[1..];
      LessIsTransitive(name(a[0]), name(b[0]), name(a[0]));
      LessIsIrreflexive(name(a[0]));
      assert false;
    }
  }

  /** Puts an element in front of the first one whose name is not smaller. */
  function Insert<V>(name: V -> string, m: V, ms: seq<V>): seq<V> {
    if ms == [] then [m]
    else if Less(name(ms[0]), name(m)) then [ms[0]] + Insert(name, m, ms[1..])
    else [m] + ms
  }

  lemma {:induction false} InsertMembers<V>(name: V -> string, m: V, ms: seq<V>, x: V)
    ensures x in Insert(name, m, ms) <==> x == m || x in ms
  {
    if ms != [] && Less(name(ms[0]), name(m)) {
      InsertMembers(name, m, ms[1..], x);
      assert ms == [ms[0]] + ms[1..];
    }
  }

  lemma {:induction false} InsertSorts<V>(name: V -> string, m: V, ms: seq<V>)
    requires SortedBy(name, ms) && forall k :: 0 <= k < |ms| ==> name(ms[k]) != name(m)
    ensures SortedBy(name, Insert(name, m, ms))
  {
    if ms != [] {
      SortedTail(name, ms);
      LessIsTotal(name(ms[0]), name(m));
      if Less(name(ms[0]), name(m)) {
        InsertSorts(name, m, ms[1..]);
        var rest := Insert(name, m, ms[1..]);
        forall k | 0 <= k < |rest|
          ensures Less(name(ms[0]), name(rest[k]))
        {
          InsertMembers(name, m, ms[1..], rest[k]);
        }
      } else {
        forall k | 0 <= k < |ms|
          ensures Less(name(m), name(ms[k]))
        {
          if k > 0 {
            LessIsTransitive(name(m), name(ms[0]), name(ms[k]));
          }
        }
      }
    }
  }

  // ----- The canonical form -----

  function NameOf(m: Member): string { m.name }

  function Canonical(v: Json): Json
    decreases v
  {
    match v
    case JObject(members) => JObject(CanonicalMembers(members))
    case JArray(items) => JArray(CanonicalItems(items))
    case _ => v
  }

  function CanonicalMembers(ms: seq<Member>): seq<Member>
    decreases ms
  {
    if ms == [] then [] else Insert(NameOf, Member(ms[0].name, Canonical(ms[0].value)), CanonicalMembers(ms[1..]))
  }

  function CanonicalItems(items: seq<Json>): (r: seq<Json>)
    ensures |r| == |items|
    ensures forall k :: 0 <= k < |items| ==> r[k] == Canonical(items[k])
    decreases items
  {
    if items == [] then [] else [Canonical(items[0])] + CanonicalItems(items[1..])
  }

  /** Names are distinct in every object, as a map of members guarantees. */
  ghost predicate WellFormed(v: Json)
    decreases v
  {
    match v
    case JObject(members) => DistinctBy(NameOf, members) && forall k :: 0 <= k < |members| ==> WellFormed(members[k].value)
    case JArray(items) => forall k :: 0 <= k < |items| ==> WellFormed(items[k])
    case _ => true
  }

  ghost function Names(ms: seq<Member>): set<string> {
    set k | 0 <= k < |ms| :: ms[k].name
  }

  /** The two values differ at most in the order of object members, at any depth. */
  ghost predicate SameUpToOrder(a: Json, b: Json)
    decreases a
  {
    match (a, b)
    case (JObject(ms), JObject(ns)) =>
      && Names(ms) == Names(ns)
      && forall i, j :: 0 <= i < |ms| && 0 <= j < |ns| && ms[i].name == ns[j].name ==>
           SameUpToOrder(ms[i].value, ns[j].value)
    case (JArray(xs), JArray(ys)) => |xs| == |ys| && forall k :: 0 <= k < |xs| ==> SameUpToOrder(xs[k], ys[k])
    case _ => a == b
  }

  /** A member as it appears in the canonical form. */
  function Form(m: Member): Member {
    Member(m.name, Canonical(m.value))
  }

  lemma {:induction false} FormIsThere(ms: seq<Member>, i: nat)
    requires i < |ms|
    ensures Form(ms[i]) in CanonicalMembers(ms)
    decreases |ms|
  {
    hide Canonical, Insert;
    InsertMembers(NameOf, Form(ms[0]), CanonicalMembers(ms[1..]), Form(ms[i]));
    if i > 0 {
      FormIsThere(ms[1..], i - 1);
    }
  }

  lemma {:induction false} FormComesFrom(ms: seq<Member>, x: Member) returns (i: nat)
    requires x in CanonicalMembers(ms)
    ensures i < |ms| && x == Form(ms[i])
    decreases |ms|
  {
    hide Canonical, Insert;
    InsertMembers(NameOf, Form(ms[0]), CanonicalMembers(ms[1..]), x);
    if x == Form(ms[0]) {
      i := 0;
    } else {
      i := FormComesFrom(ms[1..], x);
      i := i + 1;
    }
  }

  lemma {:induction false} CanonicalMembersSorted(ms: seq<Member>)
    requires DistinctBy(NameOf, ms)
    ensures SortedBy(NameOf, CanonicalMembers(ms))
    decreases |ms|
  {
    hide Canonical, Insert;
    if ms != [] {
      var rest := ms[1..];
      CanonicalMembersSorted(rest);
      var r := CanonicalMembers(rest);
      forall k | 0 <= k < |r|
        ensures r[k].name != ms[0].name
      {
        var i := FormComesFrom(rest, r[k]);
        assert NameOf(ms[0]) != NameOf(ms[i + 1]);
      }
      InsertSorts(NameOf, Form(ms[0]), r);
    }
  }

  // ----- Equal exactly up to order -----

  /** Values have the same canonical form exactly when they differ at most in member order. */
  lemma {:induction false} CanonicalIffSameUpToOrder(a: Json, b: Json)
    requires WellFormed(a) && WellFormed(b)
    ensures Canonical(a) == Canonical(b) <==> SameUpToOrder(a, b)
    decreases a
  {
    match (a, b)
    case (JObject(ms), JObject(ns)) =>
      forall i, j | 0 <= i < |ms| && 0 <= j < |ns|
        ensures Canonical(ms[i].value) == Canonical(ns[j].value) <==> SameUpToOrder(ms[i].value, ns[j].value)
      {
        CanonicalIffSameUpToOrder(ms[i].value, ns[j].value);
      }
      ObjectsIff(ms, ns);
    case (JArray(xs), JArray(ys)) =>
      if |xs| == |ys| {
        forall k | 0 <= k < |xs|
          ensures Canonical(xs[k]) == Canonical(ys[k]) <==> SameUpToOrder(xs[k], ys[k])
        {
          CanonicalIffSameUpToOrder(xs[k], ys[k]);
        }
      }
    case _ =>
  }

  /** The same names, and equal canonical values under each name. */
  ghost predicate FormsAgree(ms: seq<Member>, ns: seq<Member>) {
    && Names(ms) == Names(ns)
    && forall i, j :: 0 <= i < |ms| && 0 <= j < |ns| && ms[i].name == ns[j].name ==> Form(ms[i]) == Form(ns[j])
  }

  lemma ObjectsIff(ms: seq<Member>, ns: seq<Member>)
    requires DistinctBy(NameOf, ms) && DistinctBy(NameOf, ns)
    requires forall i, j :: 0 <= i < |ms| && 0 <= j < |ns| ==>
               (Canonical(ms[i].value) == Canonical(ns[j].value) <==> SameUpToOrder(ms[i].value, ns[j].value))
    ensures Canonical(JObject(ms)) == Canonical(JObject(ns)) <==> SameUpToOrder(JObject(ms), JObject(ns))
  {
    hide CanonicalMembers, SortedBy, DistinctBy, Names;
    assert SameUpToOrder(JObject(ms), JObject(ns)) <==> FormsAgree(ms, ns);
    if CanonicalMembers(ms) == CanonicalMembers(ns) {
      SameFormsAgree(ms, ns);
    }
    if FormsAgree(ms, ns) {
      AgreeingFormsAreSame(ms, ns);
    }
  }

  lemma SameFormsAgree(ms: seq<Member>, ns: seq<Member>)
    requires CanonicalMembers(ms) == CanonicalMembers(ns)
    requires DistinctBy(NameOf, ns)
    ensures FormsAgree(ms, ns)
  {
    hide CanonicalMembers, Canonical, SameUpToOrder;
    forall i | 0 <= i < |ms|
      ensures ms[i].name in Names(ns)
      ensures forall j :: 0 <= j < |ns| && ms[i].name == ns[j].name ==> Form(ms[i]) == Form(ns[j])
    {
      FormIsThere(ms, i);
      var k := FormComesFrom(ns, Form(ms[i]));
      forall j | 0 <= j < |ns| && ms[i].name == ns[j].name
        ensures Form(ms[i]) == Form(ns[j])
      {
        assert NameOf(ns[j]) == NameOf(ns[k]);
      }
    }
    forall j | 0 <= j < |ns|
      ensures ns[j].name in Names(ms)
    {
      FormIsThere(ns, j);
      var i := FormComesFrom(ms, Form(ns[j]));
    }
  }

  lemma AgreeingFormsAreSame(ms: seq<Member>, ns: seq<Member>)
    requires DistinctBy(NameOf, ms) && DistinctBy(NameOf, ns) && FormsAgree(ms, ns)
    ensures CanonicalMembers(ms) == CanonicalMembers(ns)
  {
    hide CanonicalMembers, Canonical, SameUpToOrder, SortedBy, DistinctBy;
    var a, b := CanonicalMembers(ms), CanonicalMembers(ns);
    forall k | 0 <= k < |a|
      ensures a[k] in b
    {
      var i := FormComesFrom(ms, a[k]);
      assert ms[i].name in Names(ns);
      var j: nat :| j < |ns| && ns[j].name == ms[i].name;
      FormIsThere(ns, j);
    }
    forall k | 0 <= k < |b|
      ensures b[k] in a
    {
      var j := FormComesFrom(ns, b[k]);
      assert ns[j].name in Names(ms);
      var i: nat :| i < |ms| && ms[i].name == ns[j].name;
      FormIsThere(ms, i);
    }
    CanonicalMembersSorted(ms);
    CanonicalMembersSorted(ns);
    SortedIsUnique(NameOf, a, b);
  }

  // ----- Canonicalising twice -----

  lemma SortedAreDistinct(ms: seq<Member>)
    requires SortedBy(NameOf, ms)
    ensures DistinctBy(NameOf, ms)
  {
    forall i, j | 0 <= i < j < |ms|
      ensures NameOf(ms[i]) != NameOf(ms[j])
    {
      LessIsIrreflexive(ms[i].name);
    }
  }

  /** Canonicalising twice is canonicalising once. */
  lemma {:induction false} CanonicalIsIdempotent(v: Json)
    requires WellFormed(v)
    ensures Canonical(Canonical(v)) == Canonical(v)
    decreases v
  {
    match v
    case JObject(ms) =>
      forall i | 0 <= i < |ms|
        ensures Canonical(Canonical(ms[i].value)) == Canonical(ms[i].value)
      {
        CanonicalIsIdempotent(ms[i].value);
      }
      MembersTwice(ms);
    case JArray(items) =>
      forall k | 0 <= k < |items|
        ensures Canonical(Canonical(items[k])) == Canonical(items[k])
      {
        CanonicalIsIdempotent(items[k]);
      }
      assert CanonicalItems(CanonicalItems(items)) == CanonicalItems(items);
    case _ =>
  }

  lemma MembersTwice(ms: seq<Member>)
    requires DistinctBy(NameOf, ms)
    requires forall i :: 0 <= i < |ms| ==> Canonical(Canonical(ms[i].value)) == Canonical(ms[i].value)
    ensures CanonicalMembers(CanonicalMembers(ms)) == CanonicalMembers(ms)
  {
    hide Canonical, CanonicalMembers;
    var r := CanonicalMembers(ms);
    CanonicalMembersSorted(ms);
    SortedAreDistinct(r);
    CanonicalMembersSorted(r);
    forall k | 0 <= k < |r|
      ensures Form(r[k]) == r[k]
    {
      var i := FormComesFrom(ms, r[k]);
    }
    var rr := CanonicalMembers(r);
    forall k | 0 <= k < |rr|
      ensures rr[k] in r
    {
      var i := FormComesFrom(r, rr[k]);
    }
    forall k | 0 <= k < |r|
      ensures r[k] in rr
    {
      FormIsThere(r, k);
    }
    SortedIsUnique(NameOf, rr, r);
  }
}
