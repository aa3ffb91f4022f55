/**
  The catalog side of the model selector: which models are offered, how they are
  grouped by provider, and which label names the current selection.

  The catalog is the list of model descriptors the settings page receives; it is a
  parameter here, never fetched.
 */
module Catalog {
  import opened Wrappers

  /** One catalog entry. `provider` is `provider.providerName`, or None when the
      descriptor carries no provider. */
  datatype ModelDescriptor = ModelDescriptor(
    name: string,
    displayName: string,
    available: bool,
    provider: Option<string>)

  /** The key grouping by the path "provider.providerName" files a descriptor under:
      the provider name, or the string a JavaScript object key makes of `undefined`
      when the path is missing. */
  function GroupKey(m: ModelDescriptor): string
  {
    match m.provider
    case Some(n) => n
    case None => "undefined"
  }

  predicate Distinct(ks: seq<string>)
  {
    forall i, j :: 0 <= i < j < |ks| ==> ks[i] != ks[j]
  }

  /** `allModels.filter((v) => v.available)`. */
  function Available(catalog: seq<ModelDescriptor>): (r: seq<ModelDescriptor>)
    ensures |r| <= |catalog|
    ensures forall m :: m in r <==> m in catalog && m.available
  {
    if catalog == [] then []
    else
      assert forall m :: m in catalog <==> m == catalog[0] || m in catalog[1..];
      (if catalog[0].available then [catalog[0]] else []) + Available(catalog[1..])
  }

  /** The filter keeps order and multiplicity: each available descriptor is kept as
      often as the catalog holds it, every other one not at all. */
  lemma {:induction false} AvailableCounts(catalog: seq<ModelDescriptor>)
    ensures forall m :: multiset(Available(catalog))[m] == if m.available then multiset(catalog)[m] else 0
  {
    if catalog != [] {
      assert catalog == [catalog[0]] + catalog[1..];
      AvailableCounts(catalog[1..]);
    }
  }

  // ----- The grouping, as the object groupBy returns -----

  /** A JavaScript object from provider key to models: `keys` is the order in which
      `Object.keys` lists the keys (the order they were first assigned), `groups`
      the value at each key. */
  datatype Grouping = Grouping(keys: seq<string>, groups: map<string, seq<ModelDescriptor>>)

  /** Grouping in one pass over `ms`: a descriptor whose key is already present is
      appended to that key's array, otherwise the key is created holding it alone. */
  function GroupBy(ms: seq<ModelDescriptor>): (g: Grouping)
    ensures forall k :: k in g.groups <==> k in g.keys
    ensures Distinct(g.keys)
  {
    if ms == [] then Grouping([], map[])
    else
      var g := GroupBy(ms[..|ms| - 1]);
      var m := ms[|ms| - 1];
      var k := GroupKey(m);
      if k in g.groups then Grouping(g.keys, g.groups[k := g.groups[k] + [m]])
      else Grouping(g.keys + [k], g.groups[k := [m]])
  }

  /** `groupBy(allModels.filter((v) => v.available), "provider.providerName")`. */
  function GroupModels(catalog: seq<ModelDescriptor>): (g: Grouping)
    ensures forall k :: k in g.groups <==> k in g.keys
    ensures Distinct(g.keys)
  {
    GroupBy(Available(catalog))
  }

  /** The models of all groups, in key order: what the provider lists, taken together,
      offer. */
  function Collect(ks: seq<string>, groups: map<string, seq<ModelDescriptor>>): seq<ModelDescriptor>
    requires forall k :: k in ks ==> k in groups
  {
    if ks == [] then [] else groups[ks[0]] + Collect(ks[1..], groups)
  }

  function Flatten(g: Grouping): seq<ModelDescriptor>
    requires forall k :: k in g.keys ==> k in g.groups
  {
    Collect(g.keys, g.groups)
  }

  // ----- Reference definition: first-seen key order, catalog order per key -----

  function KeysOf(ms: seq<ModelDescriptor>): seq<string>
  {
    seq(|ms|, i requires 0 <= i < |ms| => GroupKey(ms[i]))
  }

  /** The descriptors of `ms` whose key is `k`, in the order of `ms`. */
  function WithKey(ms: seq<ModelDescriptor>, k: string): (r: seq<ModelDescriptor>)
    ensures forall m :: m in r <==> m in ms && GroupKey(m) == k
  {
    if ms == [] then []
    else
      var last := ms[|ms| - 1];
      assert forall m :: m in ms <==> m == last || m in ms[..|ms| - 1];
      WithKey(ms[..|ms| - 1], k) + (if GroupKey(last) == k then [last] else [])
  }

  /** The keys of `ks` without repetitions, each where it first occurs. */
  function FirstSeen(ks: seq<string>): seq<string>
  {
    if ks == [] then []
    else
      var seen := FirstSeen(ks[..|ks| - 1]);
      if ks[|ks| - 1] in seen then seen else seen + [ks[|ks| - 1]]
  }

  /** The position of the first occurrence of `k` in `ks`. */
  function FirstIndex(ks: seq<string>, k: string): (i: nat)
    requires k in ks
    ensures i < |ks| && ks[i] == k && k !in ks[..i]
  {
    if ks[0] == k then 0 else 1 + FirstIndex(ks[1..], k)
  }

  lemma {:induction false} FirstIndexAppend(p: seq<string>, y: string, x: string)
    requires x in p + [y]
    ensures FirstIndex(p + [y], x) == if x in p then FirstIndex(p, x) else |p|
  {
    if p != [] && p[0] != x {
      assert (p + [y])[1..] == p[1..] + [y];
      FirstIndexAppend(p[1..], y, x);
    }
  }

  /** FirstSeen lists every key of `ks` once, in the order of first occurrence. */
  lemma {:induction false} FirstSeenOrder(ks: seq<string>)
    ensures forall k :: k in FirstSeen(ks) <==> k in ks
    ensures Distinct(FirstSeen(ks))
    ensures forall i, j :: 0 <= i < j < |FirstSeen(ks)| ==>
              FirstIndex(ks, FirstSeen(ks)[i]) < FirstIndex(ks, FirstSeen(ks)[j])
  {
    if ks != [] {
      var p, y := ks[..|ks| - 1], ks[|ks| - 1];
      assert ks == p + [y];
      FirstSeenOrder(p);
      var seen := FirstSeen(p);
      forall x | x in p
        ensures FirstIndex(ks, x) == FirstIndex(p, x)
      {
        FirstIndexAppend(p, y, x);
      }
      if y !in seen {
        FirstIndexAppend(p, y, y);
        assert FirstSeen(ks) == seen + [y];
        forall i | 0 <= i < |seen|
          ensures FirstIndex(ks, seen[i]) < FirstIndex(ks, y)
        {
          assert seen[i] in p;
        }
      }
    }
  }

  /** The membership half of FirstSeenOrder. */
  lemma FirstSeenKeys(ks: seq<string>)
    ensures forall k :: k in FirstSeen(ks) <==> k in ks
    ensures Distinct(FirstSeen(ks))
  {
    FirstSeenOrder(ks);
  }

  lemma {:induction false} WithKeyAbsent(ms: seq<ModelDescriptor>, k: string)
    requires forall m :: m in ms ==> GroupKey(m) != k
    ensures WithKey(ms, k) == []
  {
    if ms != [] {
      WithKeyAbsent(ms[..|ms| - 1], k);
    }
  }

  lemma KeysOfMember(ms: seq<ModelDescriptor>, m: ModelDescriptor)
    requires m in ms
    ensures GroupKey(m) in KeysOf(ms)
  {
    var i :| 0 <= i < |ms| && ms[i] == m;
    assert KeysOf(ms)[i] == GroupKey(m);
  }

  /** The one-pass grouping agrees with the reference definition: its keys are the
      keys of `ms` in first-seen order, and each key holds exactly the descriptors
      with that key, in the order of `ms`. */
  lemma {:induction false} GroupByMeaning(ms: seq<ModelDescriptor>)
    ensures GroupBy(ms).keys == FirstSeen(KeysOf(ms))
    ensures forall k :: k in GroupBy(ms).groups ==> GroupBy(ms).groups[k] == WithKey(ms, k)
  {
    if ms != [] {
      var p, m := ms[..|ms| - 1], ms[|ms| - 1];
      var k := GroupKey(m);
      GroupByMeaning(p);
      assert KeysOf(ms)[..|ms| - 1] == KeysOf(p);
      FirstSeenKeys(KeysOf(p));
      if k !in GroupBy(p).groups {
        assert k !in KeysOf(p);
        forall m' | m' in p
          ensures GroupKey(m') != k
        {
          KeysOfMember(p, m');
        }
        WithKeyAbsent(p, k);
      }
    }
  }

  // ----- Permutation: the groups together hold exactly the grouped models -----

  lemma {:induction false} CollectFrame(ks: seq<string>, groups: map<string, seq<ModelDescriptor>>, k: string, s: seq<ModelDescriptor>)
    requires forall j :: j in ks ==> j in groups
    requires k !in ks
    ensures Collect(ks, groups[k := s]) == Collect(ks, groups)
  {
    if ks != [] {
      CollectFrame(ks[1..], groups, k, s);
    }
  }

  lemma {:induction false} CollectAppendKey(ks: seq<string>, groups: map<string, seq<ModelDescriptor>>, k: string)
    requires forall j :: j in ks ==> j in groups
    requires k in groups
    ensures Collect(ks + [k], groups) == Collect(ks, groups) + groups[k]
  {
    if ks == [] {
      assert [k][1..] == [];
    } else {
      assert (ks + [k])[1..] == ks[1..] + [k];
      CollectAppendKey(ks[1..], groups, k);
    }
  }

  lemma {:induction false} CollectAppendToGroup(ks: seq<string>, groups: map<string, seq<ModelDescriptor>>, k: string, m: ModelDescriptor)
    requires forall j :: j in ks ==> j in groups
    requires k in ks && Distinct(ks)
    ensures multiset(Collect(ks, groups[k := groups[k] + [m]])) == multiset(Collect(ks, groups)) + multiset{m}
  {
    var groups' := groups[k := groups[k] + [m]];
    if ks[0] == k {
      assert k !in ks[1..];
      CollectFrame(ks[1..], groups, k, groups[k] + [m]);
    } else {
      CollectAppendToGroup(ks[1..], groups, k, m);
    }
  }

  /** The groups, concatenated in key order, are a permutation of the input. */
  lemma {:induction false} GroupByPermutation(ms: seq<ModelDescriptor>)
    ensures multiset(Flatten(GroupBy(ms))) == multiset(ms)
  {
    if ms != [] {
      var p, m := ms[..|ms| - 1], ms[|ms| - 1];
      assert ms == p + [m];
      var g := GroupBy(p);
      var k := GroupKey(m);
      GroupByPermutation(p);
      if k in g.groups {
        CollectAppendToGroup(g.keys, g.groups, k, m);
      } else {
        var groups' := g.groups[k := [m]];
        CollectAppendKey(g.keys, groups', k);
        CollectFrame(g.keys, g.groups, k, [m]);
      }
    }
  }

  // ----- Idempotence: regrouping the grouped models changes nothing -----

  lemma {:induction false} WithKeyConcat(a: seq<ModelDescriptor>, b: seq<ModelDescriptor>, k: string)
    ensures WithKey(a + b, k) == WithKey(a, k) + WithKey(b, k)
  {
    if b == [] {
      assert a + b == a;
    } else {
      assert (a + b)[..|a + b| - 1] == a + b[..|b| - 1];
      assert (a + b)[|a + b| - 1] == b[|b| - 1];
      WithKeyConcat(a, b[..|b| - 1], k);
    }
  }

  lemma {:induction false} WithKeyUniform(ms: seq<ModelDescriptor>, key: string, k: string)
    requires AllKeyed(ms, key)
    ensures WithKey(ms, k) == if k == key then ms else []
  {
    if ms != [] {
      var p, last := ms[..|ms| - 1], ms[|ms| - 1];
      assert ms == p + [last];
      assert AllKeyed(p, key) by {
        forall m | m in p
          ensures GroupKey(m) == key
        {
          assert m in ms;
        }
      }
      assert last in ms;
      WithKeyUniform(p, key, k);
      assert WithKey(ms, k) == WithKey(p, k) + (if GroupKey(last) == k then [last] else []);
    }
  }

  lemma {:induction false} FirstSeenRepeated(a: seq<string>, ys: seq<string>, y: string)
    requires ys != [] && forall i :: 0 <= i < |ys| ==> ys[i] == y
    ensures FirstSeen(a + ys) == if y in FirstSeen(a) then FirstSeen(a) else FirstSeen(a) + [y]
  {
    var p := ys[..|ys| - 1];
    assert (a + ys)[..|a + ys| - 1] == a + p;
    if p != [] {
      FirstSeenRepeated(a, p, y);
    } else {
      assert a + p == a;
    }
  }

  /** Every descriptor of `ms` has the key `k`. */
  predicate AllKeyed(ms: seq<ModelDescriptor>, k: string)
  {
    forall m :: m in ms ==> GroupKey(m) == k
  }

  predicate Homogeneous(ks: seq<string>, groups: map<string, seq<ModelDescriptor>>)
  {
    forall k :: k in ks ==> k in groups && groups[k] != [] && AllKeyed(groups[k], k)
  }

  lemma HomogeneousPrefix(ks: seq<string>, groups: map<string, seq<ModelDescriptor>>)
    requires ks != [] && Distinct(ks) && Homogeneous(ks, groups)
    ensures Distinct(ks[..|ks| - 1]) && Homogeneous(ks[..|ks| - 1], groups)
    ensures ks[|ks| - 1] in groups && groups[ks[|ks| - 1]] != [] && AllKeyed(groups[ks[|ks| - 1]], ks[|ks| - 1])
  {
    assert ks[|ks| - 1] in ks;
    forall j | j in ks[..|ks| - 1]
      ensures j in ks
    {
    }
  }

  lemma KeysOfConcat(a: seq<ModelDescriptor>, b: seq<ModelDescriptor>)
    ensures KeysOf(a + b) == KeysOf(a) + KeysOf(b)
  {
  }

  lemma KeysOfUniform(ms: seq<ModelDescriptor>, k: string)
    requires AllKeyed(ms, k)
    ensures forall i :: 0 <= i < |KeysOf(ms)| ==> KeysOf(ms)[i] == k
  {
    forall i | 0 <= i < |KeysOf(ms)|
      ensures KeysOf(ms)[i] == k
    {
      assert ms[i] in ms;
    }
  }

  /** Concatenating non-empty groups, each holding only its own key, lists the keys
      again in the same order. */
  lemma {:induction false} CollectKeys(ks: seq<string>, groups: map<string, seq<ModelDescriptor>>)
    requires Distinct(ks) && Homogeneous(ks, groups)
    ensures FirstSeen(KeysOf(Collect(ks, groups))) == ks
  {
    if ks != [] {
      var p, y := ks[..|ks| - 1], ks[|ks| - 1];
      assert ks == p + [y];
      HomogeneousPrefix(ks, groups);
      CollectKeys(p, groups);
      CollectAppendKey(p, groups, y);
      var front, back := Collect(p, groups), groups[y];
      assert Collect(ks, groups) == front + back;
      KeysOfConcat(front, back);
      KeysOfUniform(back, y);
      FirstSeenRepeated(KeysOf(front), KeysOf(back), y);
    }
  }

  /** ... and each key selects its own group from the concatenation again. */
  lemma {:induction false} CollectWithKey(ks: seq<string>, groups: map<string, seq<ModelDescriptor>>, k: string)
    requires Distinct(ks) && Homogeneous(ks, groups)
    ensures WithKey(Collect(ks, groups), k) == if k in ks then groups[k] else []
  {
    if ks != [] {
      var p, y := ks[..|ks| - 1], ks[|ks| - 1];
      assert ks == p + [y];
      assert y !in p;
      HomogeneousPrefix(ks, groups);
      assert AllKeyed(groups[y], y);
      var front := Collect(p, groups);
      CollectWithKey(p, groups, k);
      CollectAppendKey(p, groups, y);
      assert Collect(ks, groups) == front + groups[y];
      WithKeyConcat(front, groups[y], k);
      WithKeyUniform(groups[y], y, k);
      if k == y {
        assert WithKey(front, k) == [];
        assert WithKey(Collect(ks, groups), k) == [] + groups[y];
      } else {
        assert k in ks <==> k in p;
        assert WithKey(Collect(ks, groups), k) == WithKey(front, k) + [];
      }
    }
  }

  /** Each group of a grouping is non-empty and holds only its own key. */
  lemma GroupByHomogeneous(ms: seq<ModelDescriptor>)
    ensures Homogeneous(GroupBy(ms).keys, GroupBy(ms).groups)
  {
    var g := GroupBy(ms);
    GroupByMeaning(ms);
    FirstSeenKeys(KeysOf(ms));
    forall k | k in g.keys
      ensures k in g.groups && g.groups[k] != [] && AllKeyed(g.groups[k], k)
    {
      assert g.groups[k] == WithKey(ms, k);
      assert k in KeysOf(ms);
      var i :| 0 <= i < |ms| && KeysOf(ms)[i] == k;
      assert ms[i] in WithKey(ms, k);
    }
  }

  /** The grouping as the reference definition states it. */
  function Canonical(ms: seq<ModelDescriptor>): Grouping
  {
    var ks := FirstSeen(KeysOf(ms));
    Grouping(ks, map k | k in ks :: WithKey(ms, k))
  }

  lemma GroupByIsCanonical(ms: seq<ModelDescriptor>)
    ensures GroupBy(ms) == Canonical(ms)
  {
    GroupByMeaning(ms);
    var g, c := GroupBy(ms), Canonical(ms);
    assert g.groups.Keys == c.groups.Keys;
  }

  /** Regrouping non-empty groups that each hold only their own key gives back the
      same keys and groups. */
  lemma RegroupCollect(ks: seq<string>, groups: map<string, seq<ModelDescriptor>>)
    requires Distinct(ks) && Homogeneous(ks, groups)
    requires forall k :: k in groups <==> k in ks
    ensures GroupBy(Collect(ks, groups)) == Grouping(ks, groups)
  {
    var f := Collect(ks, groups);
    var c := Canonical(f);
    assert c.keys == ks by {
      CollectKeys(ks, groups);
    }
    assert c.groups == groups by {
      forall k | k in c.groups
        ensures c.groups[k] == groups[k]
      {
        CollectWithKey(ks, groups, k);
      }
      assert c.groups.Keys == groups.Keys;
    }
    GroupByIsCanonical(f);
  }

  /** Grouping is idempotent: grouping the concatenated groups again yields the same
      grouping. */
  lemma GroupByIdempotent(ms: seq<ModelDescriptor>)
    ensures GroupBy(Flatten(GroupBy(ms))) == GroupBy(ms)
  {
    var g := GroupBy(ms);
    GroupByHomogeneous(ms);
    RegroupCollect(g.keys, g.groups);
  }

  // ----- What the grouping of a catalog promises -----

  lemma {:induction false} AvailableOfAvailable(ms: seq<ModelDescriptor>)
    requires forall m :: m in ms ==> m.available
    ensures Available(ms) == ms
  {
    if ms != [] {
      assert ms[0] in ms;
      assert forall m :: m in ms[1..] ==> m in ms;
      AvailableOfAvailable(ms[1..]);
      assert Available(ms) == [ms[0]] + Available(ms[1..]);
      assert ms == [ms[0]] + ms[1..];
    }
  }

  /** Keys of the grouped catalog: every key of an available descriptor, once, in
      the order in which the filtered catalog first mentions it. */
  lemma GroupModelsKeys(catalog: seq<ModelDescriptor>)
    ensures GroupModels(catalog).keys == FirstSeen(KeysOf(Available(catalog)))
    ensures forall k :: k in GroupModels(catalog).keys <==>
              exists m :: m in catalog && m.available && GroupKey(m) == k
  {
    var ms := Available(catalog);
    GroupByMeaning(ms);
    FirstSeenKeys(KeysOf(ms));
    forall k
      ensures k in KeysOf(ms) <==> exists m :: m in catalog && m.available && GroupKey(m) == k
    {
      if k in KeysOf(ms) {
        var i :| 0 <= i < |ms| && KeysOf(ms)[i] == k;
        assert ms[i] in ms;
      }
      if m :| m in catalog && m.available && GroupKey(m) == k {
        KeysOfMember(ms, m);
      }
    }
  }

  /** Each group lists the available descriptors with that key, in catalog order. */
  lemma GroupModelsOrder(catalog: seq<ModelDescriptor>, k: string)
    requires k in GroupModels(catalog).groups
    ensures GroupModels(catalog).groups[k] == WithKey(Available(catalog), k)
  {
    GroupByMeaning(Available(catalog));
  }

  /** The groups concatenated form a permutation of the filtered catalog; so the
      counts shown per provider add up to the number of available descriptors. */
  lemma GroupModelsPermutation(catalog: seq<ModelDescriptor>)
    ensures multiset(Flatten(GroupModels(catalog))) == multiset(Available(catalog))
    ensures |Flatten(GroupModels(catalog))| == |Available(catalog)|
  {
    GroupByPermutation(Available(catalog));
    assert |multiset(Flatten(GroupModels(catalog)))| == |multiset(Available(catalog))|;
  }

  /** A descriptor is offered if and only if it is available, and it is offered under
      its own key and under no other. */
  lemma GroupModelsMembership(catalog: seq<ModelDescriptor>, m: ModelDescriptor)
    ensures m in Flatten(GroupModels(catalog)) <==> m in catalog && m.available
    ensures m in catalog && m.available ==>
              GroupKey(m) in GroupModels(catalog).groups && m in GroupModels(catalog).groups[GroupKey(m)]
    ensures forall k :: k in GroupModels(catalog).groups && m in GroupModels(catalog).groups[k] ==> k == GroupKey(m)
  {
    var ms := Available(catalog);
    var g := GroupModels(catalog);
    GroupModelsPermutation(catalog);
    assert m in Flatten(g) <==> m in multiset(Flatten(g));
    GroupByMeaning(ms);
    if m in catalog && m.available {
      KeysOfMember(ms, m);
      FirstSeenKeys(KeysOf(ms));
    }
  }

  /** The panel's grouping is idempotent: filtering and grouping the models it offers
      again yields the same grouping. */
  lemma GroupModelsIdempotent(catalog: seq<ModelDescriptor>)
    ensures GroupModels(Flatten(GroupModels(catalog))) == GroupModels(catalog)
  {
    var f := Flatten(GroupModels(catalog));
    forall m | m in f
      ensures m.available
    {
      GroupModelsMembership(catalog, m);
    }
    AvailableOfAvailable(f);
    GroupByIdempotent(Available(catalog));
  }

  lemma FilterOfThree(a: ModelDescriptor, b: ModelDescriptor, c: ModelDescriptor)
    requires a.available && b.available && !c.available
    ensures Available([a, b, c]) == [a, b]
  {
    assert [c][1..] == [];
    assert Available([c]) == [];
    assert [b, c][1..] == [c];
    assert Available([b, c]) == [b];
    assert [a, b, c][1..] == [b, c];
  }

  lemma GroupOfTwo(a: ModelDescriptor, b: ModelDescriptor)
    requires GroupKey(a) != GroupKey(b)
    ensures GroupBy([a, b]) == Grouping([GroupKey(a), GroupKey(b)], map[GroupKey(a) := [a], GroupKey(b) := [b]])
  {
    assert [a, b][..1] == [a];
    assert [a][..0] == [];
    assert GroupBy([a]) == Grouping([GroupKey(a)], map[GroupKey(a) := [a]]);
  }

  /** Two available models under two providers, one unavailable model: the unavailable
      one is dropped and the providers appear in catalog order. */
  lemma GroupingExample()
    ensures var gpt := ModelDescriptor("gpt-4", "gpt-4", true, Some("OpenAI"));
            var gemini := ModelDescriptor("gemini-pro", "gemini-pro", true, Some("Google"));
            var retired := ModelDescriptor("old", "old", false, Some("OpenAI"));
            GroupModels([gpt, gemini, retired]) == Grouping(["OpenAI", "Google"], map["OpenAI" := [gpt], "Google" := [gemini]])
  {
    var gpt := ModelDescriptor("gpt-4", "gpt-4", true, Some("OpenAI"));
    var gemini := ModelDescriptor("gemini-pro", "gemini-pro", true, Some("Google"));
    var retired := ModelDescriptor("old", "old", false, Some("OpenAI"));
    FilterOfThree(gpt, gemini, retired);
    assert "Google" != "OpenAI";
    GroupOfTwo(gpt, gemini);
  }

  // ----- The current selection -----

  /** `m.name === currentModel && m.provider?.providerName === currentProvider`:
      a descriptor without a provider matches an absent current provider. */
  predicate Matches(m: ModelDescriptor, name: string, provider: Option<string>)
  {
    m.name == name && m.provider == provider
  }

  /** `allModels.find(...)`, as the index of the first matching descriptor of the
      whole catalog, available or not. */
  function FindIndex(catalog: seq<ModelDescriptor>, name: string, provider: Option<string>): (r: Option<nat>)
    ensures r.Some? ==> r.value < |catalog| && Matches(catalog[r.value], name, provider)
    ensures r.Some? ==> forall j :: 0 <= j < r.value ==> !Matches(catalog[j], name, provider)
    ensures r.None? ==> forall j :: 0 <= j < |catalog| ==> !Matches(catalog[j], name, provider)
  {
    if catalog == [] then None
    else if Matches(catalog[0], name, provider) then Some(0)
    else
      match FindIndex(catalog[1..], name, provider)
      case Some(i) => Some(i + 1)
      case None => None
  }

  /** The text of the closed control:
      `currentModelObj?.displayName || props.currentModel || "Select Model"`,
      where an empty string counts as absent. */
  function SelectedLabel(catalog: seq<ModelDescriptor>, currentModel: string, currentProvider: Option<string>): (text: string)
    ensures text != ""
  {
    var found := FindIndex(catalog, currentModel, currentProvider);
    if found.Some? && catalog[found.value].displayName != "" then catalog[found.value].displayName
    else if currentModel != "" then currentModel
    else "Select Model"
  }

  /** When some descriptor of the catalog matches, the label comes from the first one,
      whether or not it is available; an empty display name falls back to the stored
      model name, then to the placeholder. */
  lemma LabelOfFirstMatch(catalog: seq<ModelDescriptor>, currentModel: string, currentProvider: Option<string>, i: nat)
    requires i < |catalog| && Matches(catalog[i], currentModel, currentProvider)
    requires forall j :: 0 <= j < i ==> !Matches(catalog[j], currentModel, currentProvider)
    ensures SelectedLabel(catalog, currentModel, currentProvider) ==
              if catalog[i].displayName != "" then catalog[i].displayName
              else if currentModel != "" then currentModel
              else "Select Model"
  {
    var found := FindIndex(catalog, currentModel, currentProvider);
    assert found.Some?;
    assert !(found.value < i) && !(i < found.value);
  }

  /** When no descriptor matches, the label is the stored model name, or the
      placeholder when that is empty. */
  lemma LabelWithoutMatch(catalog: seq<ModelDescriptor>, currentModel: string, currentProvider: Option<string>)
    requires forall j :: 0 <= j < |catalog| ==> !Matches(catalog[j], currentModel, currentProvider)
    ensures SelectedLabel(catalog, currentModel, currentProvider) ==
              if currentModel != "" then currentModel else "Select Model"
  {
  }
}
