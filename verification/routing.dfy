/** Which models are listed, and where a listed model is routed, for one snapshot of what the providers offer. */
module Routing {
  import opened Wrappers

  datatype Provider = Provider(autodiscover: bool, prefix: string)

  datatype Catalog = Catalog(statics: set<string>, providers: map<string, Provider>)

  /** The upstream model ids a provider reports; nothing when it cannot be asked. */
  type Snapshot = string -> Option<seq<string>>

  datatype Discovered = Discovered(alias: string, model: string, provider: string)

  datatype Listed = Listed(id: string, owner: string)

  const SELF := "shepard"

  /** A map is walked in any order that names each key once. */
  ghost predicate IsOrder(order: seq<string>, keys: set<string>) {
    && (forall k :: k in order <==> k in keys)
    && forall i, j :: 0 <= i < j < |order| ==> order[i] != order[j]
  }

  // ---------------------------------------------------------------------------------------------
  // Sorting
  // ---------------------------------------------------------------------------------------------

  predicate Leq(a: string, b: string) {
    a == "" || (b != "" && (a[0] < b[0] || (a[0] == b[0] && Leq(a[1..], b[1..]))))
  }

  predicate Less(a: string, b: string) {
    Leq(a, b) && a != b
  }

  lemma {:induction false} LeqTotal(a: string, b: string)
    ensures Leq(a, b) || Leq(b, a)
    ensures Leq(a, b) && Leq(b, a) ==> a == b
  {
    if a != "" && b != "" && a[0] == b[0] {
      LeqTotal(a[1..], b[1..]);
      assert a == [a[0]] + a[1..] && b == [b[0]] + b[1..];
    }
  }

  lemma {:induction false} LeqTransitive(a: string, b: string, c: string)
    requires Leq(a, b) && Leq(b, c)
    ensures Leq(a, c)
  {
    if a != "" && a[0] == b[0] == c[0] {
      LeqTransitive(a[1..], b[1..], c[1..]);
    }
  }

  ghost predicate Ascending<T(!new)>(xs: seq<T>, key: T -> string) {
    forall i, j :: 0 <= i < j < |xs| ==> Leq(key(xs[i]), key(xs[j]))
  }

  function Insert<T>(x: T, xs: seq<T>, key: T -> string): seq<T> {
    if xs == [] || Leq(key(x), key(xs[0])) then [x] + xs else [xs[0]] + Insert(x, xs[1..], key)
  }

  function SortBy<T>(xs: seq<T>, key: T -> string): seq<T> {
    if xs == [] then [] else Insert(xs[0], SortBy(xs[1..], key), key)
  }

  lemma {:induction false} InsertSorts<T(!new)>(x: T, xs: seq<T>, key: T -> string)
    requires Ascending(xs, key)
    ensures Ascending(Insert(x, xs, key), key)
    ensures multiset(Insert(x, xs, key)) == multiset(xs) + multiset{x}
  {
    if xs == [] {
    } else if Leq(key(x), key(xs[0])) {
      forall j | 0 <= j < |xs| ensures Leq(key(x), key(xs[j])) {
        if j > 0 {
          LeqTransitive(key(x), key(xs[0]), key(xs[j]));
        }
      }
    } else {
      var rest := Insert(x, xs[1..], key);
      InsertSorts(x, xs[1..], key);
      LeqTotal(key(x), key(xs[0]));
      MultisetSplit(xs);
      MultisetSplit(Insert(x, xs, key));
      hide Leq, Insert;
      forall j | 0 <= j < |rest| ensures Leq(key(xs[0]), key(rest[j])) {
        assert rest[j] in multiset(rest);
        assert rest[j] == x || rest[j] in xs[1..];
      }
    }
  }

  lemma {:induction false} SortSorts<T(!new)>(xs: seq<T>, key: T -> string)
    ensures Ascending(SortBy(xs, key), key)
    ensures multiset(SortBy(xs, key)) == multiset(xs)
    ensures forall x :: x in SortBy(xs, key) <==> x in xs
  {
    if xs != [] {
      SortSorts(xs[1..], key);
      hide Insert, Ascending;
      InsertSorts(xs[0], SortBy(xs[1..], key), key);
      MultisetSplit(xs);
    }
    SameElements(SortBy(xs, key), xs);
  }

  lemma MultisetSplit<T>(xs: seq<T>)
    requires xs != []
    ensures multiset(xs) == multiset(xs[1..]) + multiset{xs[0]}
  {
    assert xs == [xs[0]] + xs[1..];
  }

  lemma SameElements<T>(a: seq<T>, b: seq<T>)
    requires multiset(a) == multiset(b)
    ensures forall x :: x in a <==> x in b
  {
    forall x ensures x in a <==> x in b {
      assert x in a <==> x in multiset(a);
      assert x in b <==> x in multiset(b);
    }
  }

  // ---------------------------------------------------------------------------------------------
  // Discovery
  // ---------------------------------------------------------------------------------------------

  /** What the snapshot offers through this catalog. */
  ghost predicate Offers(cat: Catalog, snap: Snapshot, d: Discovered) {
    && d.provider in cat.providers && cat.providers[d.provider].autodiscover
    && OffersFrom(d.provider, cat.providers[d.provider], snap, d)
  }

  predicate OffersFrom(name: string, p: Provider, snap: Snapshot, d: Discovered) {
    && d.provider == name
    && snap(name).Some? && d.model in snap(name).value && d.model != ""
    && d.alias == p.prefix + d.model
  }

  /** The models of one provider under its prefix, or nothing when it cannot be asked. */
  method DiscoverProvider(name: string, p: Provider, snap: Snapshot) returns (r: Option<seq<Discovered>>)
    ensures r.Some? == snap(name).Some?
    ensures r.Some? ==> forall d :: d in r.value <==> OffersFrom(name, p, snap, d)
  {
    if snap(name).None? {
      return None;
    }
    var ids := snap(name).value;
    var models: seq<Discovered> := [];
    var i := 0;
    while i < |ids|
      invariant 0 <= i <= |ids|
      invariant forall d :: d in models <==> d.provider == name && d.model in ids[..i] && d.model != "" && d.alias == p.prefix + d.model
    {
      if ids[i] != "" {
        models := models + [Discovered(p.prefix + ids[i], ids[i], name)];
      }
      i := i + 1;
    }
    assert ids[..i] == ids;
    SortSorts(models, (d: Discovered) => d.alias);
    return Some(SortBy(models, (d: Discovered) => d.alias));
  }

  /** Everything on offer, by alias. Providers that cannot be asked are left out. */
  method DiscoverAll(cat: Catalog, snap: Snapshot, order: seq<string>) returns (all: seq<Discovered>)
    requires IsOrder(order, cat.providers.Keys)
    ensures forall d :: d in all <==> Offers(cat, snap, d)
    ensures Ascending(all, (d: Discovered) => d.alias)
  {
    var names: seq<string> := [];
    var i := 0;
    while i < |order|
      invariant 0 <= i <= |order|
      invariant forall n :: n in names <==> n in order[..i] && cat.providers[n].autodiscover
    {
      assert order[i] in cat.providers;
      if cat.providers[order[i]].autodiscover {
        names := names + [order[i]];
      }
      i := i + 1;
    }
    assert order[..i] == order;
    SortSorts(names, (n: string) => n);
    names := SortBy(names, (n: string) => n);
    var found: seq<Discovered> := [];
    i := 0;
    while i < |names|
      invariant 0 <= i <= |names|
      invariant forall d :: d in found <==> Offers(cat, snap, d) && d.provider in names[..i]
    {
      assert names[i] in names;
      var models := DiscoverProvider(names[i], cat.providers[names[i]], snap);
      if models.Some? {
        found := found + models.value;
      }
      i := i + 1;
    }
    assert names[..i] == names;
    SortSorts(found, (d: Discovered) => d.alias);
    all := SortBy(found, (d: Discovered) => d.alias);
  }

  // ---------------------------------------------------------------------------------------------
  // The list
  // ---------------------------------------------------------------------------------------------

  predicate Strict(xs: seq<Listed>) {
    forall i, j :: 0 <= i < j < |xs| ==> Less(xs[i].id, xs[j].id)
  }

  /** The static aliases in order, then every other alias on offer in order, under an owner that offers it. */
  ghost predicate IsListing(cat: Catalog, snap: Snapshot, own: seq<Listed>, found: seq<Listed>) {
    && Strict(own) && Strict(found)
    && (forall x :: x in own <==> x.owner == SELF && x.id in cat.statics)
    && (forall x :: x in found ==> x.id !in cat.statics && exists d :: Offers(cat, snap, d) && d.alias == x.id && d.provider == x.owner)
    && (forall d :: Offers(cat, snap, d) && d.alias !in cat.statics ==> exists i :: 0 <= i < |found| && found[i].id == d.alias)
  }

  method Models(cat: Catalog, snap: Snapshot, staticOrder: seq<string>, providerOrder: seq<string>)
    returns (data: seq<Listed>)
    requires IsOrder(staticOrder, cat.statics) && IsOrder(providerOrder, cat.providers.Keys)
    ensures exists own, found :: data == own + found && IsListing(cat, snap, own, found)
  {
    SortSorts(staticOrder, (n: string) => n);
    var aliases := SortBy(staticOrder, (n: string) => n);
    DistinctByMultiset(staticOrder, aliases);
    data := [];
    var seen: set<string> := {};
    var i := 0;
    while i < |aliases|
      invariant 0 <= i <= |aliases|
      invariant |data| == i && forall j :: 0 <= j < i ==> data[j] == Listed(aliases[j], SELF)
      invariant forall a :: a in seen <==> a in aliases[..i]
    {
      data := data + [Listed(aliases[i], SELF)];
      seen := seen + {aliases[i]};
      i := i + 1;
    }
    ghost var own := data;
    assert aliases[..i] == aliases;
    assert seen == cat.statics;
    OwnIsRight(cat, aliases, own);
    var discovered := DiscoverAll(cat, snap, providerOrder);
    var more := NotSeen(seen, discovered);
    data := data + more;
    FoundIsRight(cat, snap, discovered, more);
    assert data == own + more && IsListing(cat, snap, own, more);
  }

  /** What the found part of the list owes to the sorted models on offer. */
  ghost predicate Picks(seen: set<string>, discovered: seq<Discovered>, found: seq<Listed>) {
    && Strict(found)
    && (forall x :: x in found ==> x.id !in seen && exists j :: 0 <= j < |discovered| && discovered[j].alias == x.id && discovered[j].provider == x.owner)
    && (forall j :: 0 <= j < |discovered| ==> discovered[j].alias in seen || exists n :: 0 <= n < |found| && found[n].id == discovered[j].alias)
  }

  lemma FoundIsRight(cat: Catalog, snap: Snapshot, discovered: seq<Discovered>, found: seq<Listed>)
    requires Picks(cat.statics, discovered, found) && forall d :: d in discovered <==> Offers(cat, snap, d)
    ensures Strict(found)
    ensures forall x :: x in found ==> x.id !in cat.statics && exists d :: Offers(cat, snap, d) && d.alias == x.id && d.provider == x.owner
    ensures forall d :: Offers(cat, snap, d) && d.alias !in cat.statics ==> exists i :: 0 <= i < |found| && found[i].id == d.alias
  {
    forall x | x in found ensures exists d :: Offers(cat, snap, d) && d.alias == x.id && d.provider == x.owner {
      var j :| 0 <= j < |discovered| && discovered[j].alias == x.id && discovered[j].provider == x.owner;
      assert discovered[j] in discovered;
    }
  }

  function Ids(found: seq<Listed>): set<string> {
    set x | x in found :: x.id
  }

  lemma IdsAppend(found: seq<Listed>, x: Listed)
    ensures Ids(found + [x]) == Ids(found) + {x.id}
  {
    assert forall y :: y in found + [x] <==> y in found || y == x;
  }

  /** A model that comes after everything picked so far keeps the picks in order. */
  lemma StrictAppend(seen: set<string>, discovered: seq<Discovered>, i: nat, found: seq<Listed>)
    requires i < |discovered| && Ascending(discovered, (d: Discovered) => d.alias)
    requires Picks(seen, discovered[..i], found) && discovered[i].alias !in Ids(found)
    ensures Strict(found + [Listed(discovered[i].alias, discovered[i].provider)])
  {
    var alias := discovered[i].alias;
    forall n | 0 <= n < |found| ensures Less(found[n].id, alias) {
      assert found[n] in found;
      assert found[n].id in Ids(found);
      var j :| 0 <= j < i && discovered[..i][j].alias == found[n].id && discovered[..i][j].provider == found[n].owner;
      assert discovered[j].alias == found[n].id;
    }
  }

  lemma PickOne(seen: set<string>, discovered: seq<Discovered>, i: nat, found: seq<Listed>)
    requires i < |discovered| && Ascending(discovered, (d: Discovered) => d.alias)
    requires Picks(seen, discovered[..i], found) && discovered[i].alias !in seen + Ids(found)
    ensures var x := Listed(discovered[i].alias, discovered[i].provider);
            Picks(seen, discovered[..i + 1], found + [x]) && Ids(found + [x]) == Ids(found) + {x.id}
  {
    StrictAppend(seen, discovered, i, found);
    hide Strict, Less, Leq, Ascending, Ids;
    var before, all, item := discovered[..i], discovered[..i + 1], discovered[i];
    var x := Listed(item.alias, item.provider);
    var more := found + [x];
    IdsAppend(found, x);
    assert all[i] == item && more[|found|] == x;
    assert forall j :: 0 <= j < i ==> all[j] == before[j];
    assert forall n :: 0 <= n < |found| ==> more[n] == found[n];
  }

  lemma SkipOne(seen: set<string>, discovered: seq<Discovered>, i: nat, found: seq<Listed>)
    requires i < |discovered| && Picks(seen, discovered[..i], found)
    requires discovered[i].alias in seen + Ids(found)
    ensures Picks(seen, discovered[..i + 1], found)
  {
    var before, all := discovered[..i], discovered[..i + 1];
    assert forall j :: 0 <= j < i ==> all[j] == before[j];
    if discovered[i].alias !in seen {
      var x :| x in found && x.id == discovered[i].alias;
    }
  }

  lemma PickNone(seen: set<string>)
    ensures Picks(seen, [], []) && Ids([]) == {}
  {
  }

  /** The models whose alias was not listed yet, one for each alias. */
  method NotSeen(listed: set<string>, discovered: seq<Discovered>) returns (found: seq<Listed>)
    requires Ascending(discovered, (d: Discovered) => d.alias)
    ensures Picks(listed, discovered, found)
  {
    hide Picks, Ascending, Ids;
    PickNone(listed);
    found := [];
    var seen := listed;
    var i := 0;
    while i < |discovered|
      invariant 0 <= i <= |discovered|
      invariant Picks(listed, discovered[..i], found)
      invariant seen == listed + Ids(found)
    {
      var item := discovered[i];
      if item.alias !in seen {
        PickOne(listed, discovered, i, found);
        found := found + [Listed(item.alias, item.provider)];
        seen := seen + {item.alias};
      } else {
        SkipOne(listed, discovered, i, found);
      }
      i := i + 1;
    }
    assert discovered[..i] == discovered;
  }

  lemma DistinctByMultiset(xs: seq<string>, ys: seq<string>)
    requires multiset(xs) == multiset(ys)
    requires forall i, j :: 0 <= i < j < |xs| ==> xs[i] != xs[j]
    ensures forall i, j :: 0 <= i < j < |ys| ==> ys[i] != ys[j]
  {
    forall i, j | 0 <= i < j < |ys| ensures ys[i] != ys[j] {
      if ys[i] == ys[j] {
        TwiceCounts(ys, i, j);
        OnceCounts(xs, ys[i]);
      }
    }
  }

  lemma TwiceCounts(ys: seq<string>, i: nat, j: nat)
    requires i < j < |ys| && ys[i] == ys[j]
    ensures multiset(ys)[ys[i]] >= 2
  {
    assert ys == ys[..j] + [ys[j]] + ys[j + 1..];
    assert ys[..j][i] in multiset(ys[..j]);
  }

  lemma {:induction false} OnceCounts(xs: seq<string>, x: string)
    requires forall i, j :: 0 <= i < j < |xs| ==> xs[i] != xs[j]
    ensures multiset(xs)[x] <= 1
  {
    if xs != [] {
      OnceCounts(xs[1..], x);
      assert xs == [xs[0]] + xs[1..];
      if x == xs[0] {
        assert forall j :: 0 <= j < |xs[1..]| ==> xs[1..][j] != x;
        assert x !in xs[1..];
      }
    }
  }

  lemma OwnIsRight(cat: Catalog, aliases: seq<string>, own: seq<Listed>)
    requires |own| == |aliases| && forall j :: 0 <= j < |own| ==> own[j] == Listed(aliases[j], SELF)
    requires Ascending(aliases, (n: string) => n) && forall i, j :: 0 <= i < j < |aliases| ==> aliases[i] != aliases[j]
    requires forall a :: a in aliases <==> a in cat.statics
    ensures Strict(own) && forall x :: x in own <==> x.owner == SELF && x.id in cat.statics
  {
    forall x: Listed | x.owner == SELF && x.id in cat.statics ensures x in own {
      var j :| 0 <= j < |aliases| && aliases[j] == x.id;
      assert own[j] == x;
    }
  }

  // ---------------------------------------------------------------------------------------------
  // Routing
  // ---------------------------------------------------------------------------------------------

  datatype Routed = Static | To(provider: string, model: string) | Unknown | Failed

  /** The first provider of the walk whose prefix fits decides alone. */
  function Resolve(cat: Catalog, snap: Snapshot, alias: string, order: seq<string>): Routed
    requires forall n :: n in order ==> n in cat.providers
  {
    if order == [] then Unknown
    else
      var p := cat.providers[order[0]];
      if !p.autodiscover || !(p.prefix <= alias) then Resolve(cat, snap, alias, order[1..])
      else if snap(order[0]).None? then Failed
      else
        var model := alias[|p.prefix|..];
        if model != "" && model in snap(order[0]).value then To(order[0], model) else Unknown
  }

  function Route(cat: Catalog, snap: Snapshot, alias: string, order: seq<string>): Routed
    requires forall n :: n in order ==> n in cat.providers
  {
    if alias in cat.statics then Static else Resolve(cat, snap, alias, order)
  }

  method ResolveDiscoveredModel(cat: Catalog, snap: Snapshot, alias: string, order: seq<string>) returns (r: Routed)
    requires forall n :: n in order ==> n in cat.providers
    ensures r == Resolve(cat, snap, alias, order)
  {
    var i := 0;
    while i < |order|
      invariant 0 <= i <= |order|
      invariant Resolve(cat, snap, alias, order[i..]) == Resolve(cat, snap, alias, order)
    {
      var name := order[i];
      assert name in order && order[i..][1..] == order[i + 1..];
      var p := cat.providers[name];
      if p.autodiscover && p.prefix <= alias {
        var models := DiscoverProvider(name, p, snap);
        if models.None? {
          return Failed;
        }
        var j := 0;
        while j < |models.value|
          invariant 0 <= j <= |models.value|
          invariant forall n :: 0 <= n < j ==> models.value[n].alias != alias
        {
          if models.value[j].alias == alias {
            assert models.value[j] in models.value;
            assert alias[|p.prefix|..] == models.value[j].model;
            return To(name, models.value[j].model);
          }
          j := j + 1;
        }
        ghost var d := Discovered(alias, alias[|p.prefix|..], name);
        assert d !in models.value;
        assert alias == p.prefix + d.model;
        return Unknown;
      }
      i := i + 1;
    }
    return Unknown;
  }

  /** Some enabled provider's prefix fits the alias. */
  predicate Fits(cat: Catalog, name: string, alias: string) {
    name in cat.providers && cat.providers[name].autodiscover && cat.providers[name].prefix <= alias
  }

  /** No enabled provider's prefix begins another's. */
  predicate PrefixFree(cat: Catalog) {
    forall p, q :: p in cat.providers && q in cat.providers && p != q && cat.providers[p].autodiscover && cat.providers[q].autodiscover ==>
                     !(cat.providers[p].prefix <= cat.providers[q].prefix)
  }

  lemma PrefixesOfOne(a: string, b: string, s: string)
    requires a <= s && b <= s
    ensures a <= b || b <= a
  {
  }

  lemma AtMostOneFits(cat: Catalog, p: string, q: string, alias: string)
    requires PrefixFree(cat) && Fits(cat, p, alias) && Fits(cat, q, alias)
    ensures p == q
  {
    PrefixesOfOne(cat.providers[p].prefix, cat.providers[q].prefix, alias);
  }

  /** What routing comes to when `name` is the provider that decides. */
  function Decided(cat: Catalog, snap: Snapshot, alias: string, name: string): Routed
    requires Fits(cat, name, alias)
  {
    var model := alias[|cat.providers[name].prefix|..];
    if snap(name).None? then Failed
    else if model != "" && model in snap(name).value then To(name, model)
    else Unknown
  }

  lemma {:induction false} ResolveIs(cat: Catalog, snap: Snapshot, alias: string, order: seq<string>, name: string)
    requires forall n :: n in order ==> n in cat.providers
    requires name in order && Fits(cat, name, alias)
    requires forall n :: n in order && Fits(cat, n, alias) ==> n == name
    ensures Resolve(cat, snap, alias, order) == Decided(cat, snap, alias, name)
  {
    if order[0] != name {
      assert order == [order[0]] + order[1..];
      assert !Fits(cat, order[0], alias);
      ResolveIs(cat, snap, alias, order[1..], name);
    }
  }

  lemma {:induction false} ResolveIsUnknown(cat: Catalog, snap: Snapshot, alias: string, order: seq<string>)
    requires forall n :: n in order ==> n in cat.providers
    requires forall n :: n in order ==> !Fits(cat, n, alias)
    ensures Resolve(cat, snap, alias, order) == Unknown
  {
    if order != [] {
      assert !Fits(cat, order[0], alias) && order[0] in order;
      ResolveIsUnknown(cat, snap, alias, order[1..]);
    }
  }

  /**
   With prefix-free prefixes, and whatever the order of the walk, an alias routes to a provider exactly when no static
   alias hides it, the provider is enabled and reports the model, and the alias is its prefix and that model.
   */
  lemma RoutesToIff(cat: Catalog, snap: Snapshot, alias: string, order: seq<string>, name: string, model: string)
    requires PrefixFree(cat) && IsOrder(order, cat.providers.Keys)
    ensures Route(cat, snap, alias, order) == To(name, model) <==>
            && alias !in cat.statics && name in cat.providers && cat.providers[name].autodiscover
            && snap(name).Some? && model in snap(name).value && model != "" && alias == cat.providers[name].prefix + model
  {
    if n :| n in order && Fits(cat, n, alias) {
      forall m | m in order && Fits(cat, m, alias) ensures m == n {
        AtMostOneFits(cat, m, n, alias);
      }
      ResolveIs(cat, snap, alias, order, n);
      var rest := alias[|cat.providers[n].prefix|..];
      assert alias == cat.providers[n].prefix + rest;
      if Offers(cat, snap, Discovered(alias, model, name)) {
        assert Fits(cat, name, alias);
        assert rest == model;
      }
    } else {
      ResolveIsUnknown(cat, snap, alias, order);
      if Offers(cat, snap, Discovered(alias, model, name)) {
        assert Fits(cat, name, alias) && name in order;
      }
    }
  }

  /** It is static exactly when it is a static alias, and fails exactly when the one provider it fits cannot be asked. */
  lemma RouteFailsIff(cat: Catalog, snap: Snapshot, alias: string, order: seq<string>)
    requires PrefixFree(cat) && IsOrder(order, cat.providers.Keys)
    ensures Route(cat, snap, alias, order) == Static <==> alias in cat.statics
    ensures Route(cat, snap, alias, order) == Failed <==>
            && alias !in cat.statics
            && exists n :: n in cat.providers && cat.providers[n].autodiscover && cat.providers[n].prefix <= alias && snap(n).None?
  {
    ResolveIsNeverStatic(cat, snap, alias, order);
    if n :| n in order && Fits(cat, n, alias) {
      forall m | m in cat.providers && Fits(cat, m, alias) ensures m == n {
        AtMostOneFits(cat, m, n, alias);
      }
      ResolveIs(cat, snap, alias, order, n);
      assert forall m :: m in cat.providers && cat.providers[m].autodiscover && cat.providers[m].prefix <= alias ==> Fits(cat, m, alias);
    } else {
      ResolveIsUnknown(cat, snap, alias, order);
      assert forall m :: m in cat.providers && cat.providers[m].autodiscover && cat.providers[m].prefix <= alias ==> m in order && Fits(cat, m, alias);
    }
  }

  /** One text comes before another: it begins it, or has the smaller character where they first differ. */
  predicate Sooner(a: string, b: string) {
    || (|a| < |b| && b[..|a|] == a)
    || exists i :: 0 <= i < |a| && i < |b| && a[..i] == b[..i] && a[i] < b[i]
  }

  lemma {:induction false} LessMeans(a: string, b: string)
    ensures Less(a, b) ==> Sooner(a, b)
  {
    if a != "" && Less(a, b) {
      if a[0] < b[0] {
        assert a[..0] == b[..0];
      } else {
        assert a[1..] != b[1..] by {
          assert a == [a[0]] + a[1..] && b == [b[0]] + b[1..];
        }
        LessMeans(a[1..], b[1..]);
        SoonerLonger(a, b);
      }
    }
  }

  lemma SoonerLonger(a: string, b: string)
    requires a != "" && b != "" && a[0] == b[0] && Sooner(a[1..], b[1..])
    ensures Sooner(a, b)
  {
    var x, y := a[1..], b[1..];
    if |x| < |y| && y[..|x|] == x {
      assert b[..|a|] == [b[0]] + y[..|x|];
      assert a == [a[0]] + x;
    } else {
      var i :| 0 <= i < |x| && i < |y| && x[..i] == y[..i] && x[i] < y[i];
      assert a[..i + 1] == [a[0]] + x[..i] && b[..i + 1] == [b[0]] + y[..i];
      assert a[i + 1] < b[i + 1];
    }
  }

  /**
   The list in full. It names the static aliases under the gateway's own name and then models of enabled providers that
   report them, under prefix and id, unless a static alias hides them; every such model is there; and each of the two
   parts is in the order of the ids.
   */
  lemma ListMeans(cat: Catalog, snap: Snapshot, own: seq<Listed>, found: seq<Listed>)
    requires IsListing(cat, snap, own, found)
    ensures forall i, j :: 0 <= i < j < |own| ==> Sooner(own[i].id, own[j].id)
    ensures forall i, j :: 0 <= i < j < |found| ==> Sooner(found[i].id, found[j].id)
    ensures forall x :: x in own <==> x.owner == "shepard" && x.id in cat.statics
    ensures forall x :: x in found ==>
              && x.id !in cat.statics && x.owner in cat.providers && cat.providers[x.owner].autodiscover && snap(x.owner).Some?
              && exists m :: m in snap(x.owner).value && m != "" && x.id == cat.providers[x.owner].prefix + m
    ensures forall name, m :: name in cat.providers && cat.providers[name].autodiscover && snap(name).Some?
                              && m in snap(name).value && m != "" && cat.providers[name].prefix + m !in cat.statics ==>
              exists i :: 0 <= i < |found| && found[i].id == cat.providers[name].prefix + m
  {
    forall i, j | 0 <= i < j < |own| ensures Sooner(own[i].id, own[j].id) {
      LessMeans(own[i].id, own[j].id);
    }
    forall i, j | 0 <= i < j < |found| ensures Sooner(found[i].id, found[j].id) {
      LessMeans(found[i].id, found[j].id);
    }
    forall x | x in found
      ensures x.owner in cat.providers && cat.providers[x.owner].autodiscover && snap(x.owner).Some?
      ensures exists m :: m in snap(x.owner).value && m != "" && x.id == cat.providers[x.owner].prefix + m
    {
      var d :| Offers(cat, snap, d) && d.alias == x.id && d.provider == x.owner;
    }
    forall name, m | name in cat.providers && cat.providers[name].autodiscover && snap(name).Some?
                     && m in snap(name).value && m != "" && cat.providers[name].prefix + m !in cat.statics
      ensures exists i :: 0 <= i < |found| && found[i].id == cat.providers[name].prefix + m
    {
      assert Offers(cat, snap, Discovered(cat.providers[name].prefix + m, m, name));
    }
  }

  // ---------------------------------------------------------------------------------------------
  // The list and the routes agree
  // ---------------------------------------------------------------------------------------------

  /** No id is listed twice, with any prefixes. */
  lemma NoIdTwice(cat: Catalog, snap: Snapshot, own: seq<Listed>, found: seq<Listed>, i: nat, j: nat)
    requires IsListing(cat, snap, own, found) && i < j < |own + found|
    ensures (own + found)[i].id != (own + found)[j].id
  {
    var data := own + found;
    if i < |own| {
      assert data[i] in own;
      if j >= |own| {
        assert data[j] in found;
      }
    }
  }

  /**
   Every listed id is routed to the owner listed for it, static aliases first, in any order of the walk; the
   id is the owner's prefix and the upstream model.
   */
  lemma ListedIdsRouteToTheirOwner(cat: Catalog, snap: Snapshot, own: seq<Listed>, found: seq<Listed>, order: seq<string>, i: nat)
    requires PrefixFree(cat) && IsListing(cat, snap, own, found) && IsOrder(order, cat.providers.Keys) && i < |own + found|
    ensures var x := (own + found)[i];
            var route := Route(cat, snap, x.id, order);
            if x.id in cat.statics then route == Static && x.owner == SELF
            else route.To? && route.provider == x.owner && x.owner in cat.providers && x.id == cat.providers[x.owner].prefix + route.model
  {
    var x := (own + found)[i];
    if i < |own| {
      assert x in own;
    } else {
      assert x in found;
      var d :| Offers(cat, snap, d) && d.alias == x.id && d.provider == x.owner;
      RoutesToIff(cat, snap, x.id, order, d.provider, d.model);
    }
  }

  /** The listed id `x` routes to its owner. */
  predicate RoutesAsListed(cat: Catalog, snap: Snapshot, order: seq<string>, x: Listed)
    requires forall n :: n in order ==> n in cat.providers
  {
    var route := Route(cat, snap, x.id, order);
    if x.id in cat.statics then route == Static && x.owner == SELF else route.To? && route.provider == x.owner
  }

  ghost predicate ListAndRoutesAgree(cat: Catalog) {
    forall snap: Snapshot, own, found, order, i: nat ::
      IsListing(cat, snap, own, found) && IsOrder(order, cat.providers.Keys) && i < |own + found| ==>
      RoutesAsListed(cat, snap, order, (own + found)[i])
  }

  /** For every snapshot and walk each listed id routes to its owner, exactly when no enabled prefix begins another. */
  lemma ListAndRoutesAgreeIff(cat: Catalog)
    ensures ListAndRoutesAgree(cat) <==> PrefixFree(cat)
  {
    if PrefixFree(cat) {
      forall snap: Snapshot, own, found, order, i: nat
        | IsListing(cat, snap, own, found) && IsOrder(order, cat.providers.Keys) && i < |own + found|
        ensures RoutesAsListed(cat, snap, order, (own + found)[i])
      {
        ListedIdsRouteToTheirOwner(cat, snap, own, found, order, i);
      }
    } else {
      var p, q :| p in cat.providers && q in cat.providers && p != q && cat.providers[p].autodiscover && cat.providers[q].autodiscover
                  && cat.providers[p].prefix <= cat.providers[q].prefix;
      Disagreement(cat, p, q);
    }
  }

  /** One provider whose prefix begins another's, and which cannot be asked, hides what the other offers. */
  lemma Disagreement(cat: Catalog, p: string, q: string)
    requires p in cat.providers && q in cat.providers && p != q && cat.providers[p].autodiscover && cat.providers[q].autodiscover
    requires cat.providers[p].prefix <= cat.providers[q].prefix
    ensures !ListAndRoutesAgree(cat)
  {
    var model := FreshModel(cat.statics, cat.providers[q].prefix);
    var alias := cat.providers[q].prefix + model;
    var snap: Snapshot := (n: string) => if n == q then Some([model]) else None;
    var own := OwnListing(cat);
    var found := [Listed(alias, q)];
    OnlyOffer(cat, snap, q, model, own);
    var order := OrderFrom(cat.providers.Keys, p);
    assert cat.providers[p].prefix <= alias;
    assert Resolve(cat, snap, alias, order) == Failed;
    assert (own + found)[|own|] == Listed(alias, q);
    assert !RoutesAsListed(cat, snap, order, (own + found)[|own|]);
  }

  lemma OnlyOffer(cat: Catalog, snap: Snapshot, q: string, model: string, own: seq<Listed>)
    requires q in cat.providers && cat.providers[q].autodiscover && model != "" && cat.providers[q].prefix + model !in cat.statics
    requires forall n :: snap(n) == if n == q then Some([model]) else None
    requires Strict(own) && forall x :: x in own <==> x.owner == SELF && x.id in cat.statics
    ensures IsListing(cat, snap, own, [Listed(cat.providers[q].prefix + model, q)])
  {
    var d, found := Discovered(cat.providers[q].prefix + model, model, q), [Listed(cat.providers[q].prefix + model, q)];
    assert Offers(cat, snap, d);
    forall e | Offers(cat, snap, e) ensures found[0].id == e.alias {
      assert e.model in [model];
    }
  }

  lemma OwnListing(cat: Catalog) returns (own: seq<Listed>)
    ensures Strict(own) && forall x :: x in own <==> x.owner == SELF && x.id in cat.statics
  {
    var order := AnyOrder(cat.statics);
    SortSorts(order, (n: string) => n);
    var aliases := SortBy(order, (n: string) => n);
    DistinctByMultiset(order, aliases);
    own := seq(|aliases|, (i: nat) requires i < |aliases| => Listed(aliases[i], SELF));
    OwnIsRight(cat, aliases, own);
  }

  lemma {:induction false} LongerThanAll(keys: set<string>) returns (n: nat)
    ensures forall k :: k in keys ==> |k| < n
    decreases |keys|
  {
    if keys == {} {
      n := 0;
    } else {
      var k :| k in keys;
      var m := LongerThanAll(keys - {k});
      n := if |k| < m then m else |k| + 1;
    }
  }

  lemma FreshModel(statics: set<string>, prefix: string) returns (model: string)
    ensures model != "" && prefix + model !in statics
  {
    var n := LongerThanAll(statics);
    model := seq(n + 1, (i: nat) => 'm');
  }

  /** And whatever can be routed is listed, under the owner it is routed to. */
  lemma RoutedIdsAreListed(cat: Catalog, snap: Snapshot, own: seq<Listed>, found: seq<Listed>, order: seq<string>, alias: string)
    requires PrefixFree(cat) && IsListing(cat, snap, own, found) && IsOrder(order, cat.providers.Keys)
    ensures var route := Route(cat, snap, alias, order);
            && (route.Static? ==> Listed(alias, SELF) in own + found)
            && (route.To? ==> Listed(alias, route.provider) in own + found)
  {
    var route := Route(cat, snap, alias, order);
    if route.Static? {
      ResolveIsNeverStatic(cat, snap, alias, order);
    } else if route.To? {
      RoutesToIff(cat, snap, alias, order, route.provider, route.model);
      var d := Discovered(alias, route.model, route.provider);
      assert d.alias !in cat.statics && Offers(cat, snap, d);
      var i :| 0 <= i < |found| && found[i].id == alias;
      assert found[i] in found;
      var e :| Offers(cat, snap, e) && e.alias == alias && e.provider == found[i].owner;
      AtMostOneFits(cat, d.provider, e.provider, alias);
    }
  }

  lemma {:induction false} ResolveIsNeverStatic(cat: Catalog, snap: Snapshot, alias: string, order: seq<string>)
    requires forall n :: n in order ==> n in cat.providers
    ensures Resolve(cat, snap, alias, order) != Static
  {
    if order != [] {
      ResolveIsNeverStatic(cat, snap, alias, order[1..]);
    }
  }

  lemma HeadIsOnce(xs: seq<Listed>)
    requires Strict(xs) && xs != []
    ensures forall x :: x in xs[1..] <==> x in xs && x != xs[0]
  {
    assert xs == [xs[0]] + xs[1..];
    assert forall j :: 0 <= j < |xs[1..]| ==> xs[1..][j] == xs[j + 1] && xs[j + 1].id != xs[0].id;
  }

  lemma {:induction false} SameStrict(xs: seq<Listed>, ys: seq<Listed>)
    requires Strict(xs) && Strict(ys) && forall x :: x in xs <==> x in ys
    ensures xs == ys
  {
    if xs == [] {
      assert forall n :: 0 <= n < |ys| ==> ys[n] in ys;
    } else {
      assert xs[0] in ys;
      assert ys[0] in xs;
      LeqTotal(xs[0].id, ys[0].id);
      assert xs[0] == ys[0];
      HeadIsOnce(xs);
      HeadIsOnce(ys);
      SameStrict(xs[1..], ys[1..]);
      assert xs == [xs[0]] + xs[1..] && ys == [ys[0]] + ys[1..];
    }
  }

  /** With prefix-free prefixes there is one list: the orders in which the maps are walked do not show. */
  lemma ListIsUnique(cat: Catalog, snap: Snapshot, own: seq<Listed>, found: seq<Listed>, own': seq<Listed>, found': seq<Listed>)
    requires PrefixFree(cat) && IsListing(cat, snap, own, found) && IsListing(cat, snap, own', found')
    ensures own + found == own' + found'
  {
    SameStrict(own, own');
    FoundWithin(cat, snap, own, found, own', found');
    FoundWithin(cat, snap, own', found', own, found);
    SameStrict(found, found');
  }

  lemma FoundWithin(cat: Catalog, snap: Snapshot, own: seq<Listed>, found: seq<Listed>, own': seq<Listed>, found': seq<Listed>)
    requires PrefixFree(cat) && IsListing(cat, snap, own, found) && IsListing(cat, snap, own', found')
    ensures forall x :: x in found ==> x in found'
  {
    forall x | x in found ensures x in found' {
      var d :| Offers(cat, snap, d) && d.alias == x.id && d.provider == x.owner;
      var i :| 0 <= i < |found'| && found'[i].id == d.alias;
      assert found'[i] in found';
      var e :| Offers(cat, snap, e) && e.alias == found'[i].id && e.provider == found'[i].owner;
      AtMostOneFits(cat, d.provider, e.provider, x.id);
    }
  }

  // ---------------------------------------------------------------------------------------------
  // How far the order of the walk matters
  // ---------------------------------------------------------------------------------------------

  ghost predicate OrderNeverMatters(cat: Catalog) {
    forall snap, alias, o, o' :: IsOrder(o, cat.providers.Keys) && IsOrder(o', cat.providers.Keys) ==>
                                   Resolve(cat, snap, alias, o) == Resolve(cat, snap, alias, o')
  }

  /**
   Loading rejects only equal prefixes, which is not enough: the route of every alias is independent of the
   order of the walk exactly when no enabled prefix begins another.
   */
  lemma OrderNeverMattersIff(cat: Catalog)
    ensures OrderNeverMatters(cat) <==> PrefixFree(cat)
  {
    if PrefixFree(cat) {
      forall snap, alias, o, o' | IsOrder(o, cat.providers.Keys) && IsOrder(o', cat.providers.Keys)
        ensures Resolve(cat, snap, alias, o) == Resolve(cat, snap, alias, o')
      {
        SameRoute(cat, snap, alias, o, o');
      }
    } else {
      var p, q :| p in cat.providers && q in cat.providers && p != q && cat.providers[p].autodiscover && cat.providers[q].autodiscover
                  && cat.providers[p].prefix <= cat.providers[q].prefix;
      var alias := cat.providers[q].prefix;
      var snap: Snapshot := (n: string) => if n == p then None else Some([]);
      var o := OrderFrom(cat.providers.Keys, p);
      var o' := OrderFrom(cat.providers.Keys, q);
      assert Resolve(cat, snap, alias, o) == Failed && Resolve(cat, snap, alias, o') == Unknown;
    }
  }

  lemma SameRoute(cat: Catalog, snap: Snapshot, alias: string, o: seq<string>, o': seq<string>)
    requires PrefixFree(cat) && IsOrder(o, cat.providers.Keys) && IsOrder(o', cat.providers.Keys)
    ensures Resolve(cat, snap, alias, o) == Resolve(cat, snap, alias, o')
  {
    if n :| n in o && Fits(cat, n, alias) {
      forall m | m in cat.providers && Fits(cat, m, alias) ensures m == n {
        AtMostOneFits(cat, m, n, alias);
      }
      ResolveIs(cat, snap, alias, o, n);
      ResolveIs(cat, snap, alias, o', n);
    } else {
      ResolveIsUnknown(cat, snap, alias, o);
      ResolveIsUnknown(cat, snap, alias, o');
    }
  }

  /** Some walk begins with any given key. */
  lemma OrderFrom(keys: set<string>, first: string) returns (order: seq<string>)
    requires first in keys
    ensures IsOrder(order, keys) && order[0] == first
  {
    var rest := AnyOrder(keys - {first});
    order := [first] + rest;
    assert forall i :: 0 <= i < |rest| ==> rest[i] in rest;
  }

  lemma {:induction false} AnyOrder(keys: set<string>) returns (order: seq<string>)
    ensures IsOrder(order, keys)
    decreases |keys|
  {
    if keys == {} {
      order := [];
    } else {
      var k :| k in keys;
      var rest := AnyOrder(keys - {k});
      order := [k] + rest;
      assert forall i :: 0 <= i < |rest| ==> rest[i] in rest;
    }
  }
}
