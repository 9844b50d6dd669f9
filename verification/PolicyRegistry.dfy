/** The table of resource actions that each RPC needs, checked and sorted once when it is built. */
module PolicyRegistry {
  import opened Wrappers
  import opened Sequences
  import opened Text
  import DecisionStore

  datatype Policy = Policy(resourceKey: string, action: string)

  datatype PolicyError =
    | MethodOrEntriesMissing
    | EmptyResourceOrAction(fullMethod: string)
    | DuplicateResourceAction(fullMethod: string)

  // ----- Order -----

  predicate Before(p: Policy, q: Policy) {
    if p.resourceKey == q.resourceKey then Less(p.action, q.action) else Less(p.resourceKey, q.resourceKey)
  }

  lemma BeforeIsTotal(p: Policy, q: Policy)
    ensures Before(p, q) || p == q || Before(q, p)
    ensures !Before(p, p)
  {
    LessIsTotal(p.resourceKey, q.resourceKey);
    LessIsTotal(p.action, q.action);
    LessIsStrict(p.action);
  }

  lemma BeforeIsTransitive(p: Policy, q: Policy, r: Policy)
    requires Before(p, q) && Before(q, r)
    ensures Before(p, r) && p != r
  {
    LessIsStrict(p.resourceKey);
    LessIsStrict(p.action);
    LessIsStrict(q.resourceKey);
    if p.resourceKey == q.resourceKey == r.resourceKey {
      LessIsTransitive(p.action, q.action, r.action);
    } else if p.resourceKey != q.resourceKey && q.resourceKey != r.resourceKey {
      LessIsTransitive(p.resourceKey, q.resourceKey, r.resourceKey);
    }
  }

  ghost predicate StrictlySorted(s: seq<Policy>) {
    forall i, j :: 0 <= i < j < |s| ==> Before(s[i], s[j])
  }

  ghost predicate SameElements(s: seq<Policy>, t: seq<Policy>) {
    forall p :: p in s <==> p in t
  }

  /** Only one order of the same entries is strictly sorted, whatever way they are sorted. */
  lemma {:induction false} SortedIsUnique(s: seq<Policy>, t: seq<Policy>)
    requires StrictlySorted(s) && StrictlySorted(t) && SameElements(s, t)
    ensures s == t
  {
    assert s == [] <==> t == [] by {
      assert s != [] ==> s[0] in t;
      assert t != [] ==> t[0] in s;
    }
    if s != [] {
      LeastIsFirst(s, t);
      LeastIsFirst(t, s);
      BeforeIsTotal(s[0], t[0]);
      if Before(s[0], t[0]) && Before(t[0], s[0]) {
        BeforeIsTransitive(s[0], t[0], s[0]);
      }
      TailsHaveSameElements(s, t);
      SortedIsUnique(s[1..], t[1..]);
    }
  }

  lemma LeastIsFirst(s: seq<Policy>, t: seq<Policy>)
    requires StrictlySorted(s) && s != [] && t != [] && t[0] in s
    ensures s[0] == t[0] || Before(s[0], t[0])
  {
  }

  lemma TailsHaveSameElements(s: seq<Policy>, t: seq<Policy>)
    requires StrictlySorted(s) && StrictlySorted(t) && SameElements(s, t)
    requires s != [] && t != [] && s[0] == t[0]
    ensures SameElements(s[1..], t[1..])
  {
    forall p ensures p in s[1..] <==> p in t[1..] {
      assert p in s <==> p == s[0] || p in s[1..];
      assert p in t <==> p == t[0] || p in t[1..];
      BeforeIsTotal(p, p);
    }
  }

  function Insert(s: seq<Policy>, p: Policy): (r: seq<Policy>)
    ensures |r| == |s| + 1
    ensures forall q :: q in r <==> q == p || q in s
  {
    if s == [] || Before(p, s[0]) then [p] + s else [s[0]] + Insert(s[1..], p)
  }

  lemma {:induction false} InsertKeepsSorted(s: seq<Policy>, p: Policy)
    requires StrictlySorted(s) && p !in s
    ensures StrictlySorted(Insert(s, p))
  {
    var r := Insert(s, p);
    if s == [] {
    } else if Before(p, s[0]) {
      forall j | 1 <= j < |s| ensures Before(p, s[j]) {
        BeforeIsTransitive(p, s[0], s[j]);
      }
    } else {
      InsertKeepsSorted(s[1..], p);
      BeforeIsTotal(p, s[0]);
      forall q | q in r[1..] ensures Before(s[0], q) {
      }
    }
  }

  /** The entries, sorted. */
  function Sorted(entries: seq<Policy>): (r: seq<Policy>)
    ensures |r| == |entries|
    ensures forall p :: p in r <==> p in entries
  {
    if entries == [] then []
    else
      assert forall p :: p in entries <==> p in entries[..|entries| - 1] || p == entries[|entries| - 1];
      Insert(Sorted(entries[..|entries| - 1]), entries[|entries| - 1])
  }

  lemma {:induction false} SortedIsSorted(entries: seq<Policy>)
    requires NoRepeats(entries)
    ensures StrictlySorted(Sorted(entries))
  {
    if entries != [] {
      SortedIsSorted(entries[..|entries| - 1]);
      InsertKeepsSorted(Sorted(entries[..|entries| - 1]), entries[|entries| - 1]);
    }
  }

  /** The order in which distinct entries are listed does not matter. */
  lemma ListingOrderIsFree(a: seq<Policy>, b: seq<Policy>)
    requires NoRepeats(a) && NoRepeats(b)
    ensures Sorted(a) == Sorted(b) <==> SameElements(a, b)
  {
    SortedIsSorted(a);
    SortedIsSorted(b);
    if SameElements(a, b) {
      SortedIsUnique(Sorted(a), Sorted(b));
    } else {
      var p :| !(p in a <==> p in b);
      assert p in Sorted(a) <==> p !in Sorted(b);
    }
  }

  // ----- Tables -----

  /** The trimmed entries of each method, in the order in which they are listed. */
  type Listing = map<string, seq<Policy>>

  ghost predicate Repeatless(v: Listing) {
    forall m :: m in v ==> NoRepeats(v[m])
  }

  /** A table that building from a listing can give: each name has the sorted entries of a method
      with that name. */
  ghost predicate Describes(table: Listing, v: Listing, name: string -> string) {
    && (forall m :: m in v ==> name(m) in table)
    && (forall k :: k in table ==> Chosen(table[k], v, name, k))
  }

  ghost predicate Chosen(entries: seq<Policy>, v: Listing, name: string -> string, k: string) {
    exists m :: m in v && name(m) == k && entries == Sorted(v[m])
  }

  /** Methods with the same name have the same entries. */
  ghost predicate Agree(v: Listing, v': Listing, name: string -> string) {
    forall m, m' :: m in v && m' in v' && name(m) == name(m') ==> SameElements(v[m], v'[m'])
  }

  lemma SameRow(v: Listing, t: Listing, v': Listing, t': Listing, name: string -> string, k: string)
    requires Repeatless(v) && Repeatless(v') && Describes(t, v, name) && Describes(t', v', name) && Agree(v, v', name)
    requires k in t && k in t'
    ensures t[k] == t'[k]
  {
    assert Chosen(t[k], v, name, k) && Chosen(t'[k], v', name, k);
    var m :| m in v && name(m) == k && t[k] == Sorted(v[m]);
    var m' :| m' in v' && name(m') == k && t'[k] == Sorted(v'[m']);
    ListingOrderIsFree(v[m], v'[m']);
  }

  lemma SameRows(v: Listing, t: Listing, v': Listing, t': Listing, name: string -> string)
    requires Describes(t, v, name) && Describes(t', v', name) && v.Keys <= v'.Keys
    ensures t.Keys <= t'.Keys
  {
    forall k | k in t ensures k in t' {
      assert Chosen(t[k], v, name, k);
      var m :| m in v && name(m) == k;
      assert m in v';
    }
  }

  /** Two listings of the same methods with the same entries, listed and visited in any order, give the
      same table. */
  lemma TableIsCanonical(v: Listing, t: Listing, v': Listing, t': Listing, name: string -> string)
    requires Repeatless(v) && Repeatless(v') && Describes(t, v, name) && Describes(t', v', name)
    requires v.Keys == v'.Keys && Agree(v, v', name)
    ensures t == t'
  {
    SameRows(v, t, v', t', name);
    SameRows(v', t', v, t, name);
    forall k | k in t ensures t[k] == t'[k] {
      SameRow(v, t, v', t', name, k);
    }
  }

  /** A listing determines its table exactly when methods with the same name have the same entries. */
  lemma TableIsDetermined(v: Listing, t: Listing, name: string -> string)
    requires Repeatless(v) && Describes(t, v, name)
    ensures (forall t' :: Describes(t', v, name) ==> t' == t) <==> Agree(v, v, name)
  {
    if forall t' :: Describes(t', v, name) ==> t' == t {
      forall m, m' | m in v && m' in v && name(m) == name(m') ensures SameElements(v[m], v[m']) {
        Choose(v, t, name, m);
        Choose(v, t, name, m');
        ListingOrderIsFree(v[m], v[m']);
      }
    }
    if Agree(v, v, name) {
      forall t' | Describes(t', v, name) ensures t' == t {
        TableIsCanonical(v, t, v, t', name);
      }
    }
  }

  lemma DescribesOneMore(v: Listing, t: Listing, name: string -> string, m: string, entries: seq<Policy>)
    requires Describes(t, v, name)
    ensures Describes(t[name(m) := Sorted(entries)], v[m := entries], name)
  {
    var t', v' := t[name(m) := Sorted(entries)], v[m := entries];
    forall k | k in t' ensures Chosen(t'[k], v', name, k) {
      if k == name(m) {
        assert m in v' && v'[m] == entries;
      } else {
        assert Chosen(t[k], v, name, k);
        var x :| x in v && name(x) == k && t[k] == Sorted(v[x]);
        assert x in v' && v'[x] == v[x];
      }
    }
  }

  lemma Choose(v: Listing, t: Listing, name: string -> string, m: string)
    requires Describes(t, v, name) && m in v
    ensures Describes(t[name(m) := Sorted(v[m])], v, name)
  {
    DescribesOneMore(v, t, name, m, v[m]);
    assert v[m := v[m]] == v;
  }

  // ----- Checks -----

  function Normal(p: Policy): Policy { Policy(Trim(p.resourceKey), Trim(p.action)) }

  function Normals(raw: seq<Policy>): seq<Policy> { seq(|raw|, i requires 0 <= i < |raw| => Normal(raw[i])) }

  function Key(p: Policy): string { DecisionStore.DecisionKey(p.resourceKey, p.action) }

  predicate Named(p: Policy) { p.resourceKey != "" && p.action != "" }

  function Keys(entries: seq<Policy>): seq<string> {
    seq(|entries|, i requires 0 <= i < |entries| => Key(entries[i]))
  }

  /** Trimmed entries that a method may list. */
  ghost predicate EntriesValid(entries: seq<Policy>) {
    entries != [] && (forall i :: 0 <= i < |entries| ==> Named(entries[i])) && NoRepeats(Keys(entries))
  }

  ghost predicate ListingValid(v: Listing) {
    forall m :: m in v ==> !Blank(m) && EntriesValid(v[m])
  }

  ghost predicate MethodFails(m: string, entries: seq<Policy>, e: PolicyError) {
    match e
    case MethodOrEntriesMissing => Blank(m) || entries == []
    case EmptyResourceOrAction(fullMethod) =>
      fullMethod == Trim(m) && exists i :: 0 <= i < |entries| && !Named(entries[i])
    case DuplicateResourceAction(fullMethod) => fullMethod == Trim(m) && !NoRepeats(Keys(entries))
  }

  ghost predicate AllTrimmed(entries: seq<Policy>) {
    forall i :: 0 <= i < |entries| ==> Normal(entries[i]) == entries[i]
  }

  lemma NormalsAreTrimmed(raw: seq<Policy>)
    ensures AllTrimmed(Normals(raw))
  {
  }

  /** The resource of `p` is cut short at a NUL of the resource of `q`, and its action takes over the rest. */
  ghost predicate RunsOver(p: Policy, q: Policy) {
    DecisionStore.Overlaps(p.resourceKey, p.action, q.resourceKey, q.action)
  }

  ghost predicate SomeRunsOver(entries: seq<Policy>) {
    exists i, j :: 0 <= i < |entries| && 0 <= j < |entries| && RunsOver(entries[i], entries[j])
  }

  lemma SharedKey(p: Policy, q: Policy)
    requires Normal(p) == p && Normal(q) == q
    ensures Key(p) == Key(q) <==> p == q || RunsOver(p, q) || RunsOver(q, p)
  {
    DecisionStore.JoinedEqual(p.resourceKey, p.action, q.resourceKey, q.action);
  }

  lemma NoneRunsOverItself(p: Policy)
    ensures !RunsOver(p, p)
  {
  }

  /** Entries have distinct keys exactly when they are distinct and none runs over into another. */
  lemma KeysAreExact(entries: seq<Policy>)
    requires AllTrimmed(entries)
    ensures NoRepeats(Keys(entries)) <==> NoRepeats(entries) && !SomeRunsOver(entries)
  {
    var keys := Keys(entries);
    if NoRepeats(keys) {
      forall i, j | 0 <= i < |entries| && 0 <= j < |entries| ensures !RunsOver(entries[i], entries[j]) {
        if i == j {
          NoneRunsOverItself(entries[i]);
        } else {
          SharedKey(entries[i], entries[j]);
          assert keys[i] != keys[j];
        }
      }
      forall i, j | 0 <= i < j < |entries| ensures entries[i] != entries[j] {
        assert keys[i] != keys[j];
      }
    } else {
      var i, j :| 0 <= i < j < |entries| && keys[i] == keys[j];
      SharedKey(entries[i], entries[j]);
    }
  }

  /** So entries are taken for repeated exactly when they are repeated, if and only if none of them, being
      distinct, runs over into another. */
  lemma RepeatsAreFoundExactly(raw: seq<Policy>)
    ensures
      var entries := Normals(raw);
      (NoRepeats(Keys(entries)) <==> NoRepeats(entries)) <==> (NoRepeats(entries) ==> !SomeRunsOver(entries))
  {
    NormalsAreTrimmed(raw);
    KeysAreExact(Normals(raw));
  }

  /** Without a NUL in a resource none does. */
  lemma NulFreeNeverRunsOver(entries: seq<Policy>)
    requires forall i :: 0 <= i < |entries| ==> '\0' !in entries[i].resourceKey
    ensures !SomeRunsOver(entries)
  {
    forall i, j | 0 <= i < |entries| && 0 <= j < |entries| ensures !RunsOver(entries[i], entries[j]) {
      NulWhereItRunsOver(entries[i], entries[j]);
    }
  }

  lemma NulWhereItRunsOver(p: Policy, q: Policy)
    ensures RunsOver(p, q) ==> '\0' in q.resourceKey
  {
    assert RunsOver(p, q) ==> |p.resourceKey| < |q.resourceKey| && q.resourceKey[|p.resourceKey|] == '\0';
  }

  /** With a NUL, two different entries can be taken for one. */
  lemma KeysAreNotExactWithNul()
    ensures
      var p, q := Policy("a\0b", "c"), Policy("a", "b\0c");
      Normal(p) != Normal(q) && !NoRepeats(Keys([Normal(p), Normal(q)]))
  {
    DecisionStore.DecisionKeyIsNotExactWithNul();
    var p, q := Policy("a\0b", "c"), Policy("a", "b\0c");
    assert Trimmed(p.resourceKey) && Trimmed(p.action) && Trimmed(q.resourceKey) && Trimmed(q.action);
    assert Normal(p) == p && Normal(q) == q;
    assert Keys([p, q])[0] == Keys([p, q])[1];
  }

  /** Distinct keys stand for distinct entries, NUL or not. */
  lemma ValidIsRepeatless(v: Listing)
    requires ListingValid(v)
    ensures Repeatless(v)
  {
    forall m, i, j | m in v && 0 <= i < j < |v[m]| ensures v[m][i] != v[m][j] {
      assert EntriesValid(v[m]);
      assert Keys(v[m])[i] != Keys(v[m])[j];
    }
  }

  /** A listing is accepted exactly when no method or list is empty, and each method's entries are
      named, distinct, and do not run over into each other. */
  lemma ListingValidExactly(v: Listing)
    requires forall m :: m in v ==> AllTrimmed(v[m])
    ensures ListingValid(v) <==> forall m :: m in v ==>
      && !Blank(m) && v[m] != []
      && (forall i :: 0 <= i < |v[m]| ==> v[m][i].resourceKey != "" && v[m][i].action != "")
      && NoRepeats(v[m]) && !SomeRunsOver(v[m])
  {
    forall m | m in v ensures NoRepeats(Keys(v[m])) <==> NoRepeats(v[m]) && !SomeRunsOver(v[m]) {
      KeysAreExact(v[m]);
    }
  }

  // ----- What a registry holds -----

  ghost predicate DistinctOnceTrimmed(v: Listing) {
    forall m, m' :: m in v && m' in v && Trim(m) == Trim(m') ==> m == m'
  }

  /** Under each method the table has exactly the method's entries, strictly sorted. */
  lemma TableHoldsListing(v: Listing, t: Listing, m: string)
    requires ListingValid(v) && Describes(t, v, Trim) && DistinctOnceTrimmed(v) && m in v
    ensures Trim(m) in t && StrictlySorted(t[Trim(m)]) && SameElements(t[Trim(m)], v[m])
  {
    ValidIsRepeatless(v);
    assert Chosen(t[Trim(m)], v, Trim, Trim(m));
    SortedIsSorted(v[m]);
  }

  /** The entries of a table stand in the order of their resources, and of their actions where those are
      equal: the first text comes before the second at some position. */
  lemma TableIsInOrder(v: Listing, t: Listing, k: string, i: nat, j: nat)
    requires ListingValid(v) && Describes(t, v, Trim) && k in t && i < j < |t[k]|
    ensures
      var p, q := t[k][i], t[k][j];
      || (exists n: nat :: ComesBeforeAt(p.resourceKey, q.resourceKey, n))
      || (p.resourceKey == q.resourceKey && exists n: nat :: ComesBeforeAt(p.action, q.action, n))
  {
    ValidIsRepeatless(v);
    assert Chosen(t[k], v, Trim, k);
    var m :| m in v && Trim(m) == k && t[k] == Sorted(v[m]);
    SortedIsSorted(v[m]);
    var p, q := t[k][i], t[k][j];
    assert Before(p, q);
    LessIsLexicographic(p.resourceKey, q.resourceKey);
    LessIsLexicographic(p.action, q.action);
  }

  /** The entries that a listing has of the raw ones are those with resource and action trimmed. */
  lemma EntriesAreTrimmed(raw: seq<Policy>)
    ensures |Normals(raw)| == |raw|
    ensures forall i :: 0 <= i < |raw| ==> Normals(raw)[i] == Policy(Trim(raw[i].resourceKey), Trim(raw[i].action))
  {
  }

  /** What each error says about its method. */
  lemma FailsExactly(m: string, entries: seq<Policy>)
    requires AllTrimmed(entries)
    ensures MethodFails(m, entries, MethodOrEntriesMissing) <==> Trim(m) == "" || |entries| == 0
    ensures forall k :: MethodFails(m, entries, EmptyResourceOrAction(k)) <==>
      k == Trim(m) && exists i :: 0 <= i < |entries| && (entries[i].resourceKey == "" || entries[i].action == "")
    ensures forall k :: MethodFails(m, entries, DuplicateResourceAction(k)) <==>
      k == Trim(m) && (!NoRepeats(entries) || SomeRunsOver(entries))
  {
    KeysAreExact(entries);
  }

  /** The same methods with the same entries give the same table, in whatever order entries are listed
      and methods are visited. */
  lemma TableIsUnique(v: Listing, t: Listing, v': Listing, t': Listing)
    requires ListingValid(v) && Describes(t, v, Trim) && ListingValid(v') && Describes(t', v', Trim)
    requires DistinctOnceTrimmed(v) && v.Keys == v'.Keys && forall m :: m in v ==> SameElements(v[m], v'[m])
    ensures t == t'
  {
    ValidIsRepeatless(v);
    ValidIsRepeatless(v');
    TableIsCanonical(v, t, v', t', Trim);
  }

  /** Building from an accepted listing has one possible outcome exactly when methods that are equal once
      trimmed have the same entries. */
  lemma OutcomeIsDetermined(v: Listing, t: Listing)
    requires ListingValid(v) && Describes(t, v, Trim)
    ensures (forall t' :: Describes(t', v, Trim) ==> t' == t) <==> Agree(v, v, Trim)
  {
    ValidIsRepeatless(v);
    TableIsDetermined(v, t, Trim);
  }

  lemma OnceTrimmed()
    ensures Trim("m") == "m" && Trim(" m") == "m" && !Blank("m") && !Blank(" m")
  {
    assert Trimmed("m") && " m"[1..] == "m";
    assert !IsSpace("m"[0]) && !IsSpace(" m"[1]);
  }

  /** For methods that are equal once trimmed the order of visiting does matter. */
  lemma VisitingOrderMatters(p: Policy, q: Policy)
    requires Named(p) && Named(q) && p != q
    ensures
      var v: Listing := map["m" := [p], " m" := [q]];
      var first: Listing, second: Listing := map["m" := [p]], map["m" := [q]];
      ListingValid(v) && Describes(first, v, Trim) && Describes(second, v, Trim) && first != second
  {
    var v: Listing := map["m" := [p], " m" := [q]];
    OnceTrimmed();
    assert Sorted([p]) == [p] && Sorted([q]) == [q];
    assert v["m"] == [p] && v[" m"] == [q];
    assert Chosen([p], v, Trim, "m") && Chosen([q], v, Trim, "m");
    assert map["m" := [p]]["m"] != map["m" := [q]]["m"];
  }

  /** The entries of one method, trimmed and sorted: `normal` trims one, `key` tells entries apart. */
  method BuildEntries(
      fullMethod: string, entries: array<Policy>, normal: Policy -> Policy, key: Policy -> string,
      ghost v: seq<Policy>, ghost keys: seq<string>)
    returns (r: Result<seq<Policy>, PolicyError>)
    requires |v| == |keys| == entries.Length
    requires forall i :: 0 <= i < |v| ==> v[i] == normal(entries[i]) && keys[i] == key(v[i])
    ensures match r
      case Ok(sorted) => (forall i :: 0 <= i < |v| ==> Named(v[i])) && NoRepeats(keys) && sorted == Sorted(v)
      case Err(EmptyResourceOrAction(k)) => k == fullMethod && exists i :: 0 <= i < |v| && !Named(v[i])
      case Err(DuplicateResourceAction(k)) => k == fullMethod && !NoRepeats(keys)
      case Err(MethodOrEntriesMissing) => false
  {
    var seen: set<string> := {};
    var copied: seq<Policy> := [];
    for i := 0 to entries.Length
      invariant |copied| == i && forall j :: 0 <= j < i ==> copied[j] == v[j] && Named(v[j])
      invariant forall j :: 0 <= j < i ==> keys[j] in seen
      invariant forall x :: x in seen ==> exists j :: 0 <= j < i && keys[j] == x
      invariant forall j, k :: 0 <= j < k < i ==> keys[j] != keys[k]
    {
      var entry := normal(entries[i]);
      if entry.resourceKey == "" || entry.action == "" {
        return Err(EmptyResourceOrAction(fullMethod));
      }
      if key(entry) in seen {
        return Err(DuplicateResourceAction(fullMethod));
      }
      seen := seen + {key(entry)};
      copied := copied + [entry];
    }
    assert copied == v;
    r := Ok(Sorted(copied));
  }

  method ArrayOf<T>(s: seq<T>) returns (a: array<T>)
    ensures fresh(a) && a[..] == s
  {
    a := new T[|s|](i requires 0 <= i < |s| => s[i]);
  }

  method BuildMethod(m: string, entries: array<Policy>) returns (r: Result<array<Policy>, PolicyError>)
    ensures
      var v := Normals(entries[..]);
      match r
      case Ok(a) => !Blank(m) && EntriesValid(v) && fresh(a) && a[..] == Sorted(v)
      case Err(e) => MethodFails(m, v, e)
  {
    var fullMethod := Trim(m);
    if fullMethod == "" || entries.Length == 0 {
      return Err(MethodOrEntriesMissing);
    }
    ghost var v := Normals(entries[..]);
    var entries' := BuildEntries(fullMethod, entries, Normal, Key, v, Keys(v));
    match entries'
    case Err(e) => return Err(e);
    case Ok(sorted) =>
      var a := ArrayOf(sorted);
      return Ok(a);
  }

  // ----- The registry -----

  ghost predicate Stored(policies: map<string, array<Policy>>, table: Listing, region: set<object>)
    reads region
  {
    policies.Keys == table.Keys && forall k :: k in policies ==> policies[k] in region && policies[k][..] == table[k]
  }

  lemma StoredOneMore(
      policies: map<string, array<Policy>>, table: Listing, region: set<object>,
      k: string, a: array<Policy>, entries: seq<Policy>)
    requires Stored(policies, table, region) && a[..] == entries
    ensures Stored(policies[k := a], table[k := entries], region + {a})
  {
  }

  class PolicyRegistry {
    const policies: map<string, array<Policy>>
    ghost const table: Listing
    ghost const repr: set<object>

    ghost predicate Valid()
      reads repr
    {
      Stored(policies, table, repr)
    }

    constructor (policies: map<string, array<Policy>>, ghost table: Listing, ghost repr: set<object>)
      ensures this.policies == policies && this.table == table && this.repr == repr
    {
      this.policies, this.table, this.repr := policies, table, repr;
    }

    /** A copy of the entries of a method, in an array of the caller's own. */
    method Lookup(fullMethod: string) returns (r: Option<array<Policy>>)
      requires Valid()
      ensures
        var k := Trim(fullMethod);
        if k in table then r.Some? && fresh(r.value) && r.value[..] == table[k] else r.None?
    {
      var k := Trim(fullMethod);
      if k !in policies {
        return None;
      }
      var entries := policies[k];
      var copy := new Policy[entries.Length](i requires 0 <= i < entries.Length reads entries => entries[i]);
      return Some(copy);
    }

    /** Writing to any array outside the registry, a caller's input or a lookup's answer, leaves the
        table as it is. */
    method CallerWrites(a: array<Policy>, i: nat, p: Policy)
      requires Valid() && a !in repr && i < a.Length
      modifies a
      ensures Valid()
    {
      a[i] := p;
    }
  }

  /** Adds one method to a table built so far from the methods in `done`. */
  method AddMethod(
      built: map<string, array<Policy>>, ghost table: Listing, ghost region: set<object>, ghost done: Listing,
      m: string, entries: array<Policy>, ghost v: seq<Policy>)
    returns (r: Result<map<string, array<Policy>>, PolicyError>, ghost table': Listing, ghost region': set<object>)
    requires Stored(built, table, region) && ListingValid(done) && Describes(table, done, Trim)
    requires v == Normals(entries[..])
    ensures region <= region' && fresh(region' - region)
    ensures match r
      case Ok(built') =>
        Stored(built', table', region') && ListingValid(done[m := v]) && Describes(table', done[m := v], Trim)
      case Err(e) => MethodFails(m, v, e)
  {
    table', region' := table, region;
    var a := BuildMethod(m, entries);
    match a
    case Err(e) => return Err(e), table, region;
    case Ok(sorted) =>
      var k := Trim(m);
      DescribesOneMore(done, table, Trim, m, v);
      StoredOneMore(built, table, region, k, sorted, Sorted(v));
      return Ok(built[k := sorted]), table[k := Sorted(v)], region + {sorted};
  }

  /** NewDataAccessPolicyRegistry. `v` has the trimmed entries that the argument holds at the call. */
  method NewDataAccessPolicyRegistry(policies: map<string, array<Policy>>, ghost v: Listing)
    returns (r: Result<PolicyRegistry, PolicyError>)
    requires policies.Keys == v.Keys && forall m :: m in policies ==> v[m] == Normals(policies[m][..])
    ensures match r
      case Ok(registry) =>
        && ListingValid(v)
        && fresh(registry) && fresh(registry.repr) && registry.Valid()
        && Describes(registry.table, v, Trim)
      case Err(e) => !ListingValid(v) && exists m :: m in v && MethodFails(m, v[m], e)
  {
    var built: map<string, array<Policy>> := map[];
    ghost var table: Listing := map[];
    ghost var region: set<object> := {};
    var rest := policies.Keys;
    while rest != {}
      invariant rest <= policies.Keys && ListingValid(v - rest) && Describes(table, v - rest, Trim)
      invariant fresh(region) && Stored(built, table, region)
      decreases rest
    {
      var m :| m in rest;
      var next, table', region' := AddMethod(built, table, region, v - rest, m, policies[m], v[m]);
      match next
      case Err(e) => return Err(e);
      case Ok(built') =>
        OneMoreMethod(v, rest, m);
        built, table, region, rest := built', table', region', rest - {m};
    }
    assert v - {} == v;
    var registry := new PolicyRegistry(built, table, region);
    return Ok(registry);
  }

  lemma OneMoreMethod(v: Listing, rest: set<string>, m: string)
    requires m in v && m in rest
    ensures (v - rest)[m := v[m]] == v - (rest - {m})
  {
  }
}
