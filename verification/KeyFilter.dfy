/** Filtering metadata by an allowlist of normalised keys: which keys and which values remain,
    whatever the order in which a map's keys are visited. */
module KeyFilter {
  import opened Wrappers
  import opened Sequences
  import opened Metadata

  /** The keys that may pass, and the normalisation under which they are compared. */
  datatype Rule = Rule(allowed: set<string>, normal: string -> string)

  // ----- The filter -----

  /** The filter visits the keys of a map in an unspecified order. */
  ghost predicate Enumerates(order: seq<string>, md: MD) {
    && (forall k :: k in order <==> k in md)
    && NoRepeats(order)
  }

  /** The result of the filter when it has visited `order`. */
  function FilterInOrder(rule: Rule, md: MD, order: seq<string>): MD
    requires forall k :: k in order ==> k in md
  {
    if order == [] then map[]
    else
      var filtered := FilterInOrder(rule, md, Front(order));
      var key := rule.normal(Last(order));
      if key in rule.allowed then filtered[key := Values(filtered, key) + md[Last(order)]] else filtered
  }

  lemma FilterOneMore(rule: Rule, md: MD, order: seq<string>, key: string)
    requires (forall k :: k in order ==> k in md) && NoRepeats(order) && key in md && key !in order
    ensures forall k :: k in order + [key] <==> k in order || k == key
    ensures NoRepeats(order + [key])
    ensures
      var filtered, normalized := FilterInOrder(rule, md, order), rule.normal(key);
      FilterInOrder(rule, md, order + [key]) ==
        if normalized in rule.allowed then filtered[normalized := Values(filtered, normalized) + md[key]] else filtered
  {
    assert Front(order + [key]) == order && Last(order + [key]) == key;
  }

  method Filter(rule: Rule, md: Option<MD>) returns (filtered: MD, ghost order: seq<string>)
    ensures md.None? ==> filtered == map[]
    ensures md.Some? ==> Enumerates(order, md.value) && filtered == FilterInOrder(rule, md.value, order)
  {
    filtered, order := map[], [];
    if md.None? {
      return;
    }
    var rest := md.value.Keys;
    while rest != {}
      invariant forall k :: k in order <==> k in md.value && k !in rest
      invariant NoRepeats(order)
      invariant rest <= md.value.Keys
      invariant filtered == FilterInOrder(rule, md.value, order)
      decreases rest
    {
      var key :| key in rest;
      rest := rest - {key};
      FilterOneMore(rule, md.value, order, key);
      order := order + [key];
      var normalized := rule.normal(key);
      if normalized in rule.allowed {
        filtered := filtered[normalized := Values(filtered, normalized) + md.value[key]];
      }
    }
  }

  // ----- What the filter keeps, whatever its order -----

  function Contribution(rule: Rule, md: MD, k: string, key: string, value: string): nat
    requires k in md
  {
    if rule.normal(k) == key then multiset(md[k])[value] else 0
  }

  /** How often a value occurs under the keys of `order` that are spellings of `key`. */
  function Count(rule: Rule, md: MD, order: seq<string>, key: string, value: string): nat
    requires forall k :: k in order ==> k in md
  {
    if order == [] then 0
    else Count(rule, md, Front(order), key, value) + Contribution(rule, md, Last(order), key, value)
  }

  function Without(order: seq<string>, i: nat): seq<string>
    requires i < |order|
  {
    order[..i] + order[i + 1..]
  }

  lemma WithoutElements(order: seq<string>, i: nat)
    requires i < |order|
    ensures forall k :: k in Without(order, i) ==> k in order
    ensures forall k :: k in order && k != order[i] ==> k in Without(order, i)
    ensures NoRepeats(order) ==> NoRepeats(Without(order, i)) && order[i] !in Without(order, i)
  {
    var less := Without(order, i);
    forall k | k in order && k != order[i] ensures k in less {
      var j :| 0 <= j < |order| && order[j] == k;
      assert k == if j < i then less[j] else less[j - 1];
    }
  }

  lemma {:induction false} CountWithout(rule: Rule, md: MD, order: seq<string>, i: nat, key: string, value: string)
    requires i < |order| && forall k :: k in order ==> k in md
    requires forall k :: k in Without(order, i) ==> k in md
    ensures Count(rule, md, order, key, value) ==
      Count(rule, md, Without(order, i), key, value) + Contribution(rule, md, order[i], key, value)
  {
    var less := Without(order, i);
    if i == |order| - 1 {
      assert less == Front(order);
    } else {
      WithoutElements(Front(order), i);
      CountWithout(rule, md, Front(order), i, key, value);
      assert Front(less) == Without(Front(order), i) && Last(less) == Last(order);
    }
  }

  lemma {:induction false} CountIsOrderFree(rule: Rule, md: MD, order: seq<string>, order': seq<string>, key: string, value: string)
    requires forall k :: k in order ==> k in md
    requires forall k :: k in order <==> k in order'
    requires NoRepeats(order) && NoRepeats(order')
    ensures Count(rule, md, order, key, value) == Count(rule, md, order', key, value)
    decreases |order|
  {
    if order == [] {
      assert forall i :: 0 <= i < |order'| ==> order'[i] in order';
    } else {
      var n := |order| - 1;
      assert order[n] in order';
      var i :| 0 <= i < |order'| && order'[i] == order[n];
      WithoutElements(order, n);
      WithoutElements(order', i);
      CountWithout(rule, md, order, n, key, value);
      CountWithout(rule, md, order', i, key, value);
      CountIsOrderFree(rule, md, Without(order, n), Without(order', i), key, value);
    }
  }

  /** `values` are, with their multiplicities, all values under the spellings of `key`. */
  ghost predicate Carries(rule: Rule, md: MD, key: string, values: multiset<string>) {
    exists order :: Enumerates(order, md) && CountsAre(rule, md, order, key, values)
  }

  ghost predicate CountsAre(rule: Rule, md: MD, order: seq<string>, key: string, values: multiset<string>)
    requires forall k :: k in order ==> k in md
  {
    forall value :: Count(rule, md, order, key, value) == values[value]
  }

  /** The filter keeps exactly the allowlisted keys that some key of the input is a spelling of. */
  lemma {:induction false} FilteredKeys(rule: Rule, md: MD, order: seq<string>, key: string)
    requires forall k :: k in order ==> k in md
    ensures key in FilterInOrder(rule, md, order) <==> key in rule.allowed && exists k :: k in order && rule.normal(k) == key
  {
    if order != [] {
      FilteredKeys(rule, md, Front(order), key);
      assert forall k :: k in order <==> k in Front(order) || k == Last(order);
    }
  }

  /** Under each of them it keeps exactly the values of all its spellings. */
  lemma {:induction false} FilteredCount(rule: Rule, md: MD, order: seq<string>, key: string, value: string)
    requires forall k :: k in order ==> k in md
    requires key in rule.allowed
    ensures multiset(Values(FilterInOrder(rule, md, order), key))[value] == Count(rule, md, order, key, value)
  {
    if order != [] {
      FilteredCount(rule, md, Front(order), key, value);
    }
  }

  lemma FilteredValues(rule: Rule, md: MD, order: seq<string>, key: string, values: multiset<string>)
    requires Enumerates(order, md) && key in rule.allowed && Carries(rule, md, key, values)
    ensures multiset(Values(FilterInOrder(rule, md, order), key)) == values
  {
    var order' :| Enumerates(order', md) && CountsAre(rule, md, order', key, values);
    forall value ensures multiset(Values(FilterInOrder(rule, md, order), key))[value] == values[value] {
      FilteredCount(rule, md, order, key, value);
      CountIsOrderFree(rule, md, order, order', key, value);
    }
  }

  /** When a key has one spelling only, its values keep their order. */
  lemma {:induction false} FilteredInPlace(rule: Rule, md: MD, order: seq<string>, key: string)
    requires Enumerates(order, md) && key in rule.allowed && rule.normal(key) == key
    requires forall k :: k in md && rule.normal(k) == key ==> k == key
    ensures Values(FilterInOrder(rule, md, order), key) == Values(md, key)
  {
    FilteredOnce(rule, md, order, key);
  }

  lemma {:induction false} FilteredOnce(rule: Rule, md: MD, order: seq<string>, key: string)
    requires forall k :: k in order ==> k in md
    requires NoRepeats(order)
    requires key in rule.allowed && rule.normal(key) == key
    requires forall k :: k in md && rule.normal(k) == key ==> k == key
    ensures Values(FilterInOrder(rule, md, order), key) == if key in order then md[key] else []
  {
    if order != [] {
      FilteredOnce(rule, md, Front(order), key);
      assert forall k :: k in order <==> k in Front(order) || k == Last(order);
    }
  }

  /** Where all keys are normalised, filtering is dropping the keys that are not allowed. */
  lemma FilterOfNormal(rule: Rule, md: MD, order: seq<string>)
    requires Enumerates(order, md) && forall k :: k in md ==> rule.normal(k) == k
    ensures FilterInOrder(rule, md, order) == map k | k in md && k in rule.allowed :: md[k]
  {
    var filtered := FilterInOrder(rule, md, order);
    forall k ensures k in filtered <==> k in md && k in rule.allowed {
      FilteredKeys(rule, md, order, k);
    }
    forall k | k in filtered ensures filtered[k] == md[k] {
      FilteredInPlace(rule, md, order, k);
    }
  }

  /** Filtering again, and putting the same values over the result under a key that is not
      allowed, changes nothing. */
  lemma FilterTwice(rule: Rule, md: MD, order: seq<string>, sent: MD, order': seq<string>, name: string, values: seq<string>)
    requires Enumerates(order, md) && sent == FilterInOrder(rule, md, order)[name := values]
    requires Enumerates(order', sent) && name !in rule.allowed
    requires forall k :: k in sent ==> rule.normal(k) == k
    ensures FilterInOrder(rule, sent, order')[name := values] == sent
  {
    FilterOfNormal(rule, sent, order');
    var filtered := FilterInOrder(rule, md, order);
    forall k | k in filtered ensures k in rule.allowed {
      FilteredKeys(rule, md, order, k);
    }
    var again := FilterInOrder(rule, sent, order');
    assert again.Keys == filtered.Keys - {name};
    assert again[name := values] == sent;
  }

  /** Where all keys are normalised, a key carries just its values. */
  lemma NormalizedCarries(rule: Rule, md: MD, key: string)
    requires forall k :: k in md ==> rule.normal(k) == k
    ensures Carries(rule, md, key, multiset(Values(md, key)))
  {
    var order := SomeOrder(md.Keys);
    forall value ensures Count(rule, md, order, key, value) == multiset(Values(md, key))[value] {
      CountOfNormal(rule, md, order, key, value);
    }
    assert CountsAre(rule, md, order, key, multiset(Values(md, key)));
  }

  lemma {:induction false} CountOfNormal(rule: Rule, md: MD, order: seq<string>, key: string, value: string)
    requires forall k :: k in order ==> k in md && rule.normal(k) == k
    requires NoRepeats(order)
    ensures Count(rule, md, order, key, value) == if key in order then multiset(md[key])[value] else 0
  {
    if order != [] {
      CountOfNormal(rule, md, Front(order), key, value);
      assert forall k :: k in order <==> k in Front(order) || k == Last(order);
    }
  }

  lemma {:induction false} SomeOrder(keys: set<string>) returns (order: seq<string>)
    ensures forall k :: k in order <==> k in keys
    ensures NoRepeats(order)
    decreases keys
  {
    if keys == {} {
      order := [];
    } else {
      var k :| k in keys;
      order := SomeOrder(keys - {k});
      order := order + [k];
    }
  }

  /** Every metadata carries some values under a key. */
  lemma TotalValues(rule: Rule, md: MD, key: string) returns (values: multiset<string>)
    ensures Carries(rule, md, key, values)
  {
    var order := SomeOrder(md.Keys);
    values := BagOf(rule, md, order, key);
    forall value ensures Count(rule, md, order, key, value) == values[value] {
      BagCounts(rule, md, order, key, value);
    }
    assert CountsAre(rule, md, order, key, values);
  }

  function BagOf(rule: Rule, md: MD, order: seq<string>, key: string): multiset<string>
    requires forall k :: k in order ==> k in md
  {
    if order == [] then multiset{}
    else BagOf(rule, md, Front(order), key) + if rule.normal(Last(order)) == key then multiset(md[Last(order)]) else multiset{}
  }

  lemma {:induction false} BagCounts(rule: Rule, md: MD, order: seq<string>, key: string, value: string)
    requires forall k :: k in order ==> k in md
    ensures Count(rule, md, order, key, value) == BagOf(rule, md, order, key)[value]
  {
    if order != [] {
      BagCounts(rule, md, Front(order), key, value);
    }
  }

  /** Setting a key that is no spelling of another one leaves alone what the other one carries. */
  lemma CarriesBeside(rule: Rule, md: MD, name: string, put: seq<string>, key: string, values: multiset<string>)
    requires Carries(rule, md, key, values) && rule.normal(name) != key
    ensures Carries(rule, md[name := put], key, values)
  {
    var md' := md[name := put];
    var order :| Enumerates(order, md) && CountsAre(rule, md, order, key, values);
    var order' := if name in md then order else order + [name];
    forall value ensures Count(rule, md', order', key, value) == values[value] {
      CountBeside(rule, md, md', order, key, value);
      assert name !in md ==> Front(order') == order;
    }
    assert Enumerates(order', md') && CountsAre(rule, md', order', key, values);
  }

  lemma {:induction false} CountBeside(rule: Rule, md: MD, md': MD, order: seq<string>, key: string, value: string)
    requires forall k :: k in order ==> k in md && k in md' && (rule.normal(k) == key ==> md[k] == md'[k])
    ensures Count(rule, md, order, key, value) == Count(rule, md', order, key, value)
  {
    if order != [] {
      CountBeside(rule, md, md', Front(order), key, value);
    }
  }
}
