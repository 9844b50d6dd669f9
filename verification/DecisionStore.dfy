/** The data-access decisions that a process keeps in its contexts. Decisions hold slices of
    structs that hold slices again, so the store copies both levels on the way in and out. */
module DecisionStore {
  import opened Wrappers
  import opened Text

  // ----- Decisions in storage -----

  /** A struct with one slice in it: a row constraint with its references, or a field grant with its actions. */
  datatype Entry<H, E> = Entry(head: H, items: array<E>)

  datatype RowHead = RowHead(dimension: nat, includeDescendants: bool, relationKey: string)

  type RowConstraint = Entry<RowHead, string>
  type FieldGrant = Entry<string, nat>

  datatype Decision = Decision(
    allowed: bool,
    resourceKey: string,
    action: string,
    rows: array<RowConstraint>,
    fields: array<FieldGrant>,
    decisionId: string,
    expiresAt: int)

  // ----- Decisions as values -----

  datatype EntryValue<H, E> = EntryValue(head: H, items: seq<E>)

  datatype DecisionValue = DecisionValue(
    allowed: bool,
    resourceKey: string,
    action: string,
    rows: seq<EntryValue<RowHead, string>>,
    fields: seq<EntryValue<string, nat>>,
    decisionId: string,
    expiresAt: int)

  ghost function Items<H, E>(a: array<Entry<H, E>>): set<object>
    reads a
  {
    set i | 0 <= i < a.Length :: a[i].items as object
  }

  /** The array holds, on both levels, what the sequence says. */
  ghost predicate Reads<H, E>(a: array<Entry<H, E>>, v: seq<EntryValue<H, E>>)
    reads a, Items(a)
  {
    && a.Length == |v|
    && forall i :: 0 <= i < a.Length ==> a[i].head == v[i].head && a[i].items[..] == v[i].items
  }

  ghost predicate ReadsDecision(d: Decision, v: DecisionValue)
    reads d.rows, Items(d.rows), d.fields, Items(d.fields)
  {
    && v == DecisionValue(d.allowed, d.resourceKey, d.action, v.rows, v.fields, d.decisionId, d.expiresAt)
    && Reads(d.rows, v.rows)
    && Reads(d.fields, v.fields)
  }

  /** Two decisions with one value are equal in every field, entry and item. */
  lemma SameValueIsEqual(d: Decision, d': Decision, v: DecisionValue)
    requires ReadsDecision(d, v) && ReadsDecision(d', v)
    ensures d.allowed == d'.allowed && d.resourceKey == d'.resourceKey && d.action == d'.action
    ensures d.decisionId == d'.decisionId && d.expiresAt == d'.expiresAt
    ensures d.rows.Length == d'.rows.Length && d.fields.Length == d'.fields.Length
    ensures forall i :: 0 <= i < d.rows.Length ==>
      d.rows[i].head == d'.rows[i].head && d.rows[i].items[..] == d'.rows[i].items[..]
    ensures forall i :: 0 <= i < d.fields.Length ==>
      d.fields[i].head == d'.fields[i].head && d.fields[i].items[..] == d'.fields[i].items[..]
  {
  }

  /** The decision lies in `region` and has the given value. */
  ghost predicate Keeps(d: Decision, region: set<object>, v: DecisionValue)
    reads region
  {
    && d.rows in region && d.fields in region
    && Items(d.rows) <= region && Items(d.fields) <= region
    && ReadsDecision(d, v)
  }

  method CloneItems<E>(a: array<E>) returns (b: array<E>)
    ensures fresh(b) && b[..] == a[..]
  {
    b := new E[a.Length](i requires 0 <= i < a.Length reads a => a[i]);
  }

  method CloneEntries<H, E>(a: array<Entry<H, E>>, ghost v: seq<EntryValue<H, E>>) returns (b: array<Entry<H, E>>)
    requires Reads(a, v)
    ensures fresh(b) && fresh(Items(b)) && Reads(b, v)
  {
    b := new Entry<H, E>[a.Length](i requires 0 <= i < a.Length reads a => a[i]);
    for i := 0 to b.Length
      invariant fresh(b) && b.Length == a.Length
      invariant forall j :: 0 <= j < i ==> fresh(b[j].items) && b[j].head == v[j].head && b[j].items[..] == v[j].items
      invariant forall j :: i <= j < b.Length ==> b[j] == a[j]
    {
      var items := CloneItems(b[i].items);
      b[i] := b[i].(items := items);
    }
  }

  /** cloneDecision: an equal decision in new arrays on both levels. */
  method CloneDecision(source: Decision, ghost v: DecisionValue) returns (d: Decision, ghost region: set<object>)
    requires ReadsDecision(source, v)
    ensures fresh(region) && Keeps(d, region, v)
  {
    var rows := CloneEntries(source.rows, v.rows);
    var fields := CloneEntries(source.fields, v.fields);
    d := source.(rows := rows, fields := fields);
    region := {rows as object, fields as object} + Items(rows) + Items(fields);
  }

  // ----- Keys -----

  function DecisionKey(resourceKey: string, action: string): string {
    Trim(resourceKey) + "\0" + Trim(action)
  }

  /** The first resource is cut short at a NUL of the second one, and its action takes over the rest. */
  ghost predicate Overlaps(r: string, a: string, r': string, a': string) {
    exists x :: Overlap(r, a, r', a', x)
  }

  predicate Overlap(r: string, a: string, r': string, a': string, x: string) {
    r' == r + "\0" + x && a == x + "\0" + a'
  }

  /** Two resources and actions that get one key: they are equal once trimmed, or one runs over into
      the other. */
  ghost predicate ShareKey(r: string, a: string, r': string, a': string) {
    || (Trim(r) == Trim(r') && Trim(a) == Trim(a'))
    || Overlaps(Trim(r), Trim(a), Trim(r'), Trim(a'))
    || Overlaps(Trim(r'), Trim(a'), Trim(r), Trim(a))
  }

  lemma LongerHeadOverlaps(r: string, a: string, r': string, a': string)
    requires r + "\0" + a == r' + "\0" + a' && |r| < |r'|
    ensures Overlaps(r, a, r', a')
  {
    var k, x := r + "\0" + a, r'[|r| + 1..];
    assert r' == k[..|r'|] && r == k[..|r|] && k[|r|] == '\0';
    assert r' == r + "\0" + x;
    assert a == k[|r| + 1..] && a' == k[|r'| + 1..] && k[|r'|] == '\0';
    assert x == k[|r| + 1..|r'|] && a == x + "\0" + a';
    assert Overlap(r, a, r', a', x);
  }

  lemma OverlapsShare(r: string, a: string, r': string, a': string)
    requires Overlaps(r, a, r', a')
    ensures r + "\0" + a == r' + "\0" + a'
  {
    var x :| Overlap(r, a, r', a', x);
    assert r + "\0" + (x + "\0" + a') == (r + "\0" + x) + "\0" + a';
  }

  lemma JoinedEqual(r: string, a: string, r': string, a': string)
    ensures r + "\0" + a == r' + "\0" + a' <==> (r == r' && a == a') || Overlaps(r, a, r', a') || Overlaps(r', a', r, a)
  {
    if r + "\0" + a == r' + "\0" + a' {
      if |r| < |r'| {
        LongerHeadOverlaps(r, a, r', a');
      } else if |r'| < |r| {
        LongerHeadOverlaps(r', a', r, a);
      } else {
        var k := r + "\0" + a;
        assert r == k[..|r|] && r' == k[..|r|] && a == k[|r| + 1..] && a' == k[|r| + 1..];
      }
    } else if Overlaps(r, a, r', a') {
      OverlapsShare(r, a, r', a');
    } else if Overlaps(r', a', r, a) {
      OverlapsShare(r', a', r, a);
    }
  }

  /** Exactly when two keys are equal, for all resources and actions. */
  lemma DecisionKeyIsExact(r: string, a: string, r': string, a': string)
    ensures DecisionKey(r, a) == DecisionKey(r', a') <==> ShareKey(r, a, r', a')
  {
    JoinedEqual(Trim(r), Trim(a), Trim(r'), Trim(a'));
  }

  /** Cut at any other NUL, the key does not fall into two trimmed parts. */
  ghost predicate Unambiguous(r: string, a: string) {
    OnlyCut(DecisionKey(r, a), |Trim(r)|)
  }

  ghost predicate OnlyCut(k: string, n: nat) {
    forall i :: 0 <= i < |k| && k[i] == '\0' && i != n ==> !(Trimmed(k[..i]) && Trimmed(k[i + 1..]))
  }

  /** A key stands for one trimmed resource and action exactly when it is unambiguous. */
  lemma KeyStandsForOne(r: string, a: string)
    ensures Unambiguous(r, a) <==>
      forall r', a' :: DecisionKey(r', a') == DecisionKey(r, a) ==> Trim(r') == Trim(r) && Trim(a') == Trim(a)
  {
    var k, n := DecisionKey(r, a), |Trim(r)|;
    if OnlyCut(k, n) {
      forall r', a' | DecisionKey(r', a') == k ensures Trim(r') == Trim(r) && Trim(a') == Trim(a) {
        SameCut(k, Trim(r), Trim(a), Trim(r'), Trim(a'));
      }
    } else {
      var r', a' := OtherCut(k, n);
      assert DecisionKey(r', a') == k && |Trim(r')| != n;
    }
  }

  lemma SameCut(k: string, r: string, a: string, r': string, a': string)
    requires k == r + "\0" + a == r' + "\0" + a' && OnlyCut(k, |r|) && Trimmed(r') && Trimmed(a')
    ensures r' == r && a' == a
  {
    assert k[|r'|] == '\0' && k[..|r'|] == r' && k[|r'| + 1..] == a';
    assert k[..|r|] == r && k[|r| + 1..] == a;
  }

  lemma OtherCut(k: string, n: nat) returns (r: string, a: string)
    requires !OnlyCut(k, n)
    ensures Trimmed(r) && Trimmed(a) && k == r + "\0" + a && |r| != n
  {
    var i :| 0 <= i < |k| && k[i] == '\0' && i != n && Trimmed(k[..i]) && Trimmed(k[i + 1..]);
    r, a := k[..i], k[i + 1..];
  }

  /** A resource without a NUL, and an action without one, is unambiguous. */
  lemma NulFreeIsUnambiguous(r: string, a: string)
    requires '\0' !in r && '\0' !in a
    ensures Unambiguous(r, a)
  {
    assert forall i :: |Trim(r)| < i < |DecisionKey(r, a)| ==> DecisionKey(r, a)[i] in Trim(a);
    assert forall i :: 0 <= i < |Trim(r)| ==> DecisionKey(r, a)[i] in Trim(r);
  }

  /** With a NUL in it, a resource key can run into the action. */
  lemma DecisionKeyIsNotExactWithNul()
    ensures DecisionKey("a\0b", "c") == DecisionKey("a", "b\0c") && Trim("a\0b") != Trim("a")
  {
    assert Trimmed("a\0b") && Trimmed("c") && Trimmed("a") && Trimmed("b\0c");
  }

  // ----- Contexts -----

  /** One context of the process. `stored` is what it holds, `repr` the arrays it keeps it in. */
  class Context {
    const decisions: map<string, Decision>
    ghost const stored: map<string, DecisionValue>
    ghost const repr: set<object>

    constructor (decisions: map<string, Decision>, ghost stored: map<string, DecisionValue>, ghost repr: set<object>)
      ensures this.decisions == decisions && this.stored == stored && this.repr == repr
    {
      this.decisions, this.stored, this.repr := decisions, stored, repr;
    }

    ghost predicate Valid()
      reads repr
    {
      AllKept(decisions, stored, repr)
    }
  }

  ghost predicate AllKept(decisions: map<string, Decision>, stored: map<string, DecisionValue>, region: set<object>)
    reads region
  {
    && decisions.Keys == stored.Keys
    && forall k :: k in decisions ==> Keeps(decisions[k], region, stored[k])
  }

  method Background() returns (c: Context)
    ensures fresh(c) && c.Valid() && c.stored == map[] && c.repr == {}
  {
    c := new Context(map[], map[], {});
  }

  /** Puts a copy of a decision under a key, in new arrays. */
  method PutCopy(
      decisions: map<string, Decision>, ghost stored: map<string, DecisionValue>, ghost region: set<object>,
      key: string, d: Decision, ghost v: DecisionValue)
    returns (decisions': map<string, Decision>, ghost region': set<object>)
    requires AllKept(decisions, stored, region) && ReadsDecision(d, v)
    ensures region <= region' && fresh(region' - region)
    ensures AllKept(decisions', stored[key := v], region')
  {
    var copy, added := CloneDecision(d, v);
    decisions' := decisions[key := copy];
    region' := region + added;
    forall k | k in decisions && k != key ensures Keeps(decisions[k], region', stored[k]) {
      assert Keeps(decisions[k], region, stored[k]);
    }
  }

  /** Copies of all decisions of a context, in new arrays. */
  method CopyDecisions(ctx: Context) returns (decisions: map<string, Decision>, ghost region: set<object>)
    requires ctx.Valid()
    ensures fresh(region) && AllKept(decisions, ctx.stored, region)
  {
    decisions, region := map[], {};
    var rest := ctx.decisions.Keys;
    while rest != {}
      invariant ctx.Valid() && fresh(region)
      invariant rest <= ctx.decisions.Keys && decisions.Keys == ctx.decisions.Keys - rest
      invariant forall k :: k in decisions ==> Keeps(decisions[k], region, ctx.stored[k])
      decreases rest
    {
      var key :| key in rest;
      assert Keeps(ctx.decisions[key], ctx.repr, ctx.stored[key]);
      var copy, added := CloneDecision(ctx.decisions[key], ctx.stored[key]);
      forall k | k in decisions ensures Keeps(decisions[k], region + added, ctx.stored[k]) {
        assert Keeps(decisions[k], region, ctx.stored[k]);
      }
      decisions := decisions[key := copy];
      region := region + added;
      rest := rest - {key};
    }
  }

  /** A child context with a copy of the decision under `key`, and copies of all others. */
  method Derive(ctx: Context, key: string, d: Decision, ghost v: DecisionValue) returns (c: Context)
    requires ctx.Valid() && ReadsDecision(d, v)
    ensures fresh(c) && fresh(c.repr) && c.Valid() && c.stored == ctx.stored[key := v]
  {
    var decisions, region := CopyDecisions(ctx);
    decisions, region := PutCopy(decisions, ctx.stored, region, key, d, v);
    c := new Context(decisions, ctx.stored[key := v], region);
  }

  /** A copy of the decision under `key`, if there is one. */
  method Retrieve(ctx: Context, key: string) returns (r: Option<Decision>, ghost region: set<object>)
    requires ctx.Valid()
    ensures fresh(region)
    ensures if key in ctx.stored then r.Some? && Keeps(r.value, region, ctx.stored[key]) else r.None?
  {
    if key !in ctx.decisions {
      return None, {};
    }
    assert Keeps(ctx.decisions[key], ctx.repr, ctx.stored[key]);
    var copy, added := CloneDecision(ctx.decisions[key], ctx.stored[key]);
    return Some(copy), added;
  }

  /** WithDataAccessDecision: without a decision, the context itself. */
  method WithDataAccessDecision(ctx: Context, decision: Option<Decision>, ghost v: DecisionValue) returns (c: Context)
    requires ctx.Valid() && (decision.Some? ==> ReadsDecision(decision.value, v))
    ensures decision.None? ==> c == ctx
    ensures decision.Some? ==>
      fresh(c) && fresh(c.repr) && c.Valid() && c.stored == ctx.stored[DecisionKey(v.resourceKey, v.action) := v]
  {
    if decision.None? {
      return ctx;
    }
    c := Derive(ctx, DecisionKey(decision.value.resourceKey, decision.value.action), decision.value, v);
  }

  /** DataAccessDecisionFromContext: a copy of the decision for a resource and an action. */
  method DataAccessDecisionFromContext(ctx: Context, resourceKey: string, action: string)
    returns (r: Option<Decision>, ghost region: set<object>)
    requires ctx.Valid()
    ensures fresh(region)
    ensures
      var key := DecisionKey(resourceKey, action);
      if key in ctx.stored then r.Some? && Keeps(r.value, region, ctx.stored[key]) else r.None?
  {
    r, region := Retrieve(ctx, DecisionKey(resourceKey, action));
  }
}
