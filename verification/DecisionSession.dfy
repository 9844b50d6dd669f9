/** A process that stores decisions in contexts and reads them back, while its code changes any
    decision it holds in place. What a read gives depends on the stores only. */
module DecisionSession {
  import opened Wrappers
  import opened DecisionStore
  import opened Text

  // ----- What the contexts hold, as a value -----

  /** `context` numbers the contexts in the order in which they came to be; 0 is the background. */
  datatype Event =
    | Stored(context: nat, key: string, value: DecisionValue)
    | Read(context: nat, key: string, result: Option<DecisionValue>)

  type Contents = map<string, DecisionValue>

  /** Each store makes a child that differs from its parent in one key; nothing else changes anything. */
  function Model(log: seq<Event>): (m: seq<Contents>)
    ensures |m| >= 1
  {
    if log == [] then [map[]]
    else
      var m := Model(log[..|log| - 1]);
      match log[|log| - 1]
      case Stored(i, key, v) => if i < |m| then m + [m[i][key := v]] else m
      case Read(_, _, _) => m
  }

  function Lookup(c: Contents, key: string): Option<DecisionValue> {
    if key in c then Some(c[key]) else None
  }

  /** Every read gave what the model holds at that point. */
  ghost predicate ReadsAgree(log: seq<Event>) {
    log != [] ==>
      var front, e := log[..|log| - 1], log[|log| - 1];
      && ReadsAgree(front)
      && (e.Read? ==> e.context < |Model(front)| && e.result == Lookup(Model(front)[e.context], e.key))
  }

  /** Every store is made under the key of its decision. */
  ghost predicate Keyed(log: seq<Event>) {
    log != [] ==>
      var e := log[|log| - 1];
      Keyed(log[..|log| - 1]) && (e.Stored? ==> e.key == DecisionKey(e.value.resourceKey, e.value.action))
  }

  /** The contents are those that the log describes, and its reads agree with it. */
  ghost predicate Explained(log: seq<Event>, contents: seq<Contents>) {
    contents == Model(log) && ReadsAgree(log) && Keyed(log)
  }

  lemma ExplainedOneMore(log: seq<Event>, contents: seq<Contents>, e: Event)
    requires Explained(log, contents) && e.context < |contents|
    requires e.Read? ==> e.result == Lookup(contents[e.context], e.key)
    requires e.Stored? ==> e.key == DecisionKey(e.value.resourceKey, e.value.action)
    ensures Explained(log + [e], if e.Stored? then contents + [contents[e.context][e.key := e.value]] else contents)
  {
    assert (log + [e])[..|log|] == log;
  }

  /** Isolation: no later event changes what an existing context holds, be it a parent or a sibling. */
  lemma {:induction false} ContextsNeverChange(log: seq<Event>, n: nat, i: nat)
    requires n <= |log| && i < |Model(log[..n])|
    ensures i < |Model(log)| && Model(log)[i] == Model(log[..n])[i]
  {
    if n < |log| {
      var front := log[..|log| - 1];
      assert front[..n] == log[..n];
      ContextsNeverChange(front, n, i);
    } else {
      assert log[..n] == log;
    }
  }

  /** A store's child gives the stored decision under every resource and action that share its key,
      and under every other what its parent gives. An unambiguous key is shared by no other. */
  lemma StoredIsFound(log: seq<Event>, i: nat, v: DecisionValue, resourceKey: string, action: string)
    requires i < |Model(log)|
    ensures
      var child := Model(log + [Stored(i, DecisionKey(v.resourceKey, v.action), v)])[|Model(log)|];
      Lookup(child, DecisionKey(resourceKey, action)) ==
        if ShareKey(resourceKey, action, v.resourceKey, v.action) then Some(v)
        else Lookup(Model(log)[i], DecisionKey(resourceKey, action))
    ensures Unambiguous(v.resourceKey, v.action) ==>
      (ShareKey(resourceKey, action, v.resourceKey, v.action) <==>
        Trim(resourceKey) == Trim(v.resourceKey) && Trim(action) == Trim(v.action))
  {
    var e := Stored(i, DecisionKey(v.resourceKey, v.action), v);
    assert (log + [e])[..|log|] == log;
    DecisionKeyIsExact(resourceKey, action, v.resourceKey, v.action);
    KeyStandsForOne(v.resourceKey, v.action);
  }

  /** The last decision stored under a key in a context: the one with which the context was made, if
      that was the key, or else the last one in its parent. */
  function LastStored(log: seq<Event>, i: nat, key: string): Option<DecisionValue>
    requires i < |Model(log)|
  {
    if log == [] then None
    else
      var front, e := log[..|log| - 1], log[|log| - 1];
      if i < |Model(front)| then LastStored(front, i, key)
      else if e.key == key then Some(e.value)
      else LastStored(front, e.context, key)
  }

  lemma {:induction false} LookupIsLastStored(log: seq<Event>, i: nat, key: string)
    requires i < |Model(log)|
    ensures Lookup(Model(log)[i], key) == LastStored(log, i, key)
  {
    if log != [] {
      var front, e := log[..|log| - 1], log[|log| - 1];
      LookupIsLastStored(front, if i < |Model(front)| then i else e.context, key);
    }
  }

  /** The same told by resource and action: the last decision stored for them. */
  ghost function LastDecision(log: seq<Event>, i: nat, resourceKey: string, action: string): Option<DecisionValue>
    requires i < |Model(log)|
  {
    if log == [] then None
    else
      var front, e := log[..|log| - 1], log[|log| - 1];
      if i < |Model(front)| then LastDecision(front, i, resourceKey, action)
      else if Trim(e.value.resourceKey) == Trim(resourceKey) && Trim(e.value.action) == Trim(action) then Some(e.value)
      else LastDecision(front, e.context, resourceKey, action)
  }

  lemma {:induction false} LastStoredIsLastDecision(log: seq<Event>, i: nat, resourceKey: string, action: string)
    requires i < |Model(log)| && Keyed(log) && Unambiguous(resourceKey, action)
    ensures LastStored(log, i, DecisionKey(resourceKey, action)) == LastDecision(log, i, resourceKey, action)
  {
    if log != [] {
      var front, e := log[..|log| - 1], log[|log| - 1];
      if i < |Model(front)| {
        LastStoredIsLastDecision(front, i, resourceKey, action);
      } else {
        LastStoredIsLastDecision(front, e.context, resourceKey, action);
        KeyStandsForOne(resourceKey, action);
      }
    }
  }

  /** What is explained is explained at every earlier point. */
  lemma {:induction false} PrefixAgrees(log: seq<Event>, n: nat)
    requires ReadsAgree(log) && Keyed(log) && n <= |log|
    ensures ReadsAgree(log[..n]) && Keyed(log[..n])
  {
    if n < |log| {
      PrefixAgrees(log[..|log| - 1], n);
      assert log[..|log| - 1][..n] == log[..n];
    } else {
      assert log[..n] == log;
    }
  }

  /** In an explained log, a read gave the last decision that was stored under its key in its context;
      when the read's resource and action have an unambiguous key, the last one stored for them. */
  lemma ReadsGiveLastStored(log: seq<Event>, contents: seq<Contents>, n: nat, resourceKey: string, action: string)
    requires Explained(log, contents) && n < |log| && log[n].Read? && log[n].key == DecisionKey(resourceKey, action)
    ensures log[n].context < |Model(log[..n])|
    ensures log[n].result == LastStored(log[..n], log[n].context, log[n].key)
    ensures Unambiguous(resourceKey, action) ==> log[n].result == LastDecision(log[..n], log[n].context, resourceKey, action)
  {
    PrefixAgrees(log, n + 1);
    assert log[..n + 1][..n] == log[..n];
    PrefixAgrees(log, n);
    LookupIsLastStored(log[..n], log[n].context, log[n].key);
    if Unambiguous(resourceKey, action) {
      LastStoredIsLastDecision(log[..n], log[n].context, resourceKey, action);
    }
  }

  // ----- The contexts of the process -----

  ghost predicate Serves(c: Context, region: set<object>, contents: Contents)
    reads region
  {
    c.repr <= region && c.Valid() && c.stored == contents
  }

  ghost predicate AllServe(contexts: seq<Context>, region: set<object>, contents: seq<Contents>)
    reads region
    decreases |contexts|
  {
    && |contexts| == |contents|
    && (contexts != [] ==>
      && AllServe(contexts[..|contexts| - 1], region, contents[..|contents| - 1])
      && Serves(contexts[|contexts| - 1], region, contents[|contents| - 1]))
  }

  lemma {:induction false} AllServeAt(contexts: seq<Context>, region: set<object>, contents: seq<Contents>, i: nat)
    requires AllServe(contexts, region, contents) && i < |contexts|
    ensures Serves(contexts[i], region, contents[i])
    decreases |contexts|
  {
    if i < |contexts| - 1 {
      AllServeAt(contexts[..|contexts| - 1], region, contents[..|contents| - 1], i);
    }
  }

  lemma {:induction false} AllServeInLarger(
      contexts: seq<Context>, region: set<object>, contents: seq<Contents>, larger: set<object>)
    requires AllServe(contexts, region, contents) && region <= larger
    ensures AllServe(contexts, larger, contents)
    decreases |contexts|
  {
    if contexts != [] {
      AllServeInLarger(contexts[..|contexts| - 1], region, contents[..|contents| - 1], larger);
    }
  }

  lemma AllServeWithOneMore(contexts: seq<Context>, region: set<object>, contents: seq<Contents>, c: Context)
    requires AllServe(contexts, region, contents) && c.Valid()
    ensures AllServe(contexts + [c], region + c.repr, contents + [c.stored])
  {
    AllServeInLarger(contexts, region, contents, region + c.repr);
    assert (contexts + [c])[..|contexts|] == contexts && (contents + [c.stored])[..|contents|] == contents;
    assert Serves(c, region + c.repr, c.stored);
  }

  method AddChild(
      contexts: seq<Context>, ghost region: set<object>, ghost contents: seq<Contents>,
      context: nat, key: string, d: Decision, ghost v: DecisionValue)
    returns (contexts': seq<Context>, ghost region': set<object>, ghost contents': seq<Contents>)
    requires AllServe(contexts, region, contents) && context < |contexts| && ReadsDecision(d, v)
    ensures region <= region' && fresh(region' - region)
    ensures contents' == contents + [contents[context][key := v]]
    ensures AllServe(contexts', region', contents')
  {
    AllServeAt(contexts, region, contents, context);
    var c := Derive(contexts[context], key, d, v);
    AllServeWithOneMore(contexts, region, contents, c);
    contexts', region', contents' := contexts + [c], region + c.repr, contents + [c.stored];
  }

  class Archive {
    var contexts: seq<Context>
    ghost var region: set<object>
    ghost var contents: seq<Contents>

    ghost predicate Valid()
      reads this, region
    {
      this !in region && AllServe(contexts, region, contents)
    }

    constructor ()
      ensures Valid() && contents == [map[]] && region == {}
    {
      var background := Background();
      contexts, region, contents := [background], {}, [map[]];
    }

    /** Stores a copy of a decision in a new child of a context. */
    method Store(context: nat, key: string, d: Decision, ghost v: DecisionValue)
      requires Valid() && context < |contexts| && ReadsDecision(d, v)
      modifies this
      ensures Valid() && region >= old(region) && fresh(region - old(region))
      ensures contents == old(contents) + [old(contents)[context][key := v]]
    {
      var contexts', region', contents' := AddChild(contexts, region, contents, context, key, d, v);
      contexts, region, contents := contexts', region', contents';
    }

    /** Reads a decision from a context, in new arrays. */
    method Fetch(context: nat, key: string) returns (r: Option<Decision>, ghost added: set<object>)
      requires Valid() && context < |contexts|
      ensures Valid() && fresh(added)
      ensures if key in contents[context] then r.Some? && Keeps(r.value, added, contents[context][key]) else r.None?
    {
      AllServeAt(contexts, region, contents, context);
      r, added := Retrieve(contexts[context], key);
    }
  }

  lemma CurrentEntries<H, E>(a: array<Entry<H, E>>) returns (v: seq<EntryValue<H, E>>)
    ensures Reads(a, v)
  {
    v := seq(a.Length, i requires 0 <= i < a.Length reads a, Items(a) => EntryValue(a[i].head, a[i].items[..]));
  }

  lemma CurrentValue(d: Decision) returns (v: DecisionValue)
    ensures ReadsDecision(d, v)
  {
    var rows := CurrentEntries(d.rows);
    var fields := CurrentEntries(d.fields);
    v := DecisionValue(d.allowed, d.resourceKey, d.action, rows, fields, d.decisionId, d.expiresAt);
  }

  // ----- The code that holds decisions -----

  /** A process with its contexts. `held` has every array that its code ever made or was given; it
      may change each of them at any time. The log tells, in order, what the code stored and what
      its reads gave. */
  class Session {
    const archive: Archive
    ghost var held: set<object>
    ghost var log: seq<Event>

    ghost predicate Valid()
      reads this, archive, archive.region
    {
      && this !in archive.region
      && archive.Valid()
      && held !! archive.region
      && Explained(log, archive.contents)
    }

    constructor ()
      ensures Valid() && fresh(archive) && log == [] && held == {}
    {
      archive := new Archive();
      held, log := {}, [];
    }

    /** The code makes an array of its own, of references, actions, rows or fields. */
    method Make<T>(n: nat, x: T) returns (a: array<T>)
      requires Valid()
      modifies this`held
      ensures Valid() && fresh(a) && held == old(held) + {a} && a.Length == n
      ensures forall i :: 0 <= i < n ==> a[i] == x
    {
      a := new T[n](_ => x);
      held := held + {a};
    }

    /** The code changes an array in place. */
    method Change<T>(a: array<T>, i: nat, x: T)
      requires Valid() && a in held && i < a.Length
      modifies a
      ensures Valid() && a[..] == old(a[..])[i := x]
    {
      a[i] := x;
    }

    /** Stores a decision whose arrays stay in the code's hands. `v` is its value at this moment. */
    method PutDecision(context: nat, d: Decision) returns (ghost v: DecisionValue)
      requires Valid() && context < |archive.contexts|
      modifies this`log, archive
      ensures old(ReadsDecision(d, v))
      ensures Valid() && log == old(log) + [Stored(context, DecisionKey(v.resourceKey, v.action), v)]
    {
      v := CurrentValue(d);
      var key := DecisionKey(d.resourceKey, d.action);
      ExplainedOneMore(log, archive.contents, Stored(context, key, v));
      archive.Store(context, key, d, v);
      log := log + [Stored(context, key, v)];
    }

    ghost method NoteRead(context: nat, key: string, v: Option<DecisionValue>, added: set<object>)
      requires Valid() && context < |archive.contents| && v == Lookup(archive.contents[context], key)
      requires added !! archive.region
      modifies this`log, this`held
      ensures Valid() && log == old(log) + [Read(context, key, v)] && held == old(held) + added
    {
      ExplainedOneMore(log, archive.contents, Read(context, key, v));
      log, held := log + [Read(context, key, v)], held + added;
    }

    /** Reads a decision; its arrays are in the code's hands from then on. */
    method GetDecision(context: nat, resourceKey: string, action: string)
      returns (r: Option<Decision>, ghost v: Option<DecisionValue>, ghost added: set<object>)
      requires Valid() && context < |archive.contexts|
      modifies this`log, this`held
      ensures Valid() && log == old(log) + [Read(context, DecisionKey(resourceKey, action), v)]
      ensures if r.Some? then v.Some? && Keeps(r.value, added, v.value) else v.None?
      ensures fresh(added) && held == old(held) + added
    {
      var key := DecisionKey(resourceKey, action);
      r, added := archive.Fetch(context, key);
      v := Lookup(archive.contents[context], key);
      NoteRead(context, key, v, added);
    }
  }
}
