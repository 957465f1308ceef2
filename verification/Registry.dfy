/** The plugin registry (plugin/plugin.go): execution order, and hooks composed in that order. */
module Registry {
  import opened Sequences
  import opened CatalogModel

  type Kind = string

  datatype Input = Input(schema: string, table: string, column: string, columns: seq<string>, constraint: string,
                         function': string, enum: string, value: string, isList: bool)

  type Next = (Kind, Input) -> string

  type InflectionHook = (Kind, Input, Next) -> string

  /** A hook rewrites the catalog; an error stops the pass with the catalog as far as it got. */
  type CatalogHook = CatalogData -> (CatalogData, Option<string>)

  datatype Plugin = Plugin(name: string, priority: int, inflection: Option<InflectionHook>,
                           catalog: Option<CatalogHook>)

  // ----- stable order

  predicate Ordered(xs: seq<Plugin>) { forall i, j :: 0 <= i < j < |xs| ==> xs[i].priority <= xs[j].priority }

  function AtPriority(n: int): Plugin -> bool { (p: Plugin) => p.priority == n }

  /** Ordered by priority, and plugins of one priority are in the order they came. */
  ghost predicate StableSortOf(xs: seq<Plugin>, ys: seq<Plugin>) {
    Ordered(ys) && forall n :: Filter(AtPriority(n), ys) == Filter(AtPriority(n), xs)
  }

  /** Placed after everything of the same or a smaller priority. */
  function Insert(p: Plugin, xs: seq<Plugin>): (r: seq<Plugin>)
    requires Ordered(xs)
    ensures |r| == |xs| + 1
  {
    if xs == [] || xs[|xs| - 1].priority <= p.priority then xs + [p]
    else Insert(p, xs[..|xs| - 1]) + [xs[|xs| - 1]]
  }

  /** Plugins of different priorities may change places. */
  lemma SwapUnseen(k: int, before: seq<Plugin>, xs: seq<Plugin>, last: Plugin, p: Plugin)
    requires Filter(AtPriority(k), before) == Filter(AtPriority(k), xs + [p])
    requires p.priority != last.priority
    ensures Filter(AtPriority(k), before + [last]) == Filter(AtPriority(k), xs + [last] + [p])
  {
    hide Filter;
    FilterSnoc(AtPriority(k), before, last);
    FilterSnoc(AtPriority(k), xs, p);
    FilterSnoc(AtPriority(k), xs + [last], p);
    FilterSnoc(AtPriority(k), xs, last);
  }

  lemma {:induction false} InsertStable(p: Plugin, xs: seq<Plugin>)
    requires Ordered(xs)
    ensures StableSortOf(xs + [p], Insert(p, xs))
    ensures forall q :: q in Insert(p, xs) ==> q == p || q in xs
  {
    hide Filter, AtPriority;
    if xs == [] || xs[|xs| - 1].priority <= p.priority {
    } else {
      var n := |xs| - 1;
      var before, last := Insert(p, xs[..n]), xs[n];
      InsertStable(p, xs[..n]);
      forall i | 0 <= i < |before|
        ensures before[i].priority <= last.priority
      {
        assert before[i] in before;
      }
      assert xs == xs[..n] + [last];
      forall k { SwapUnseen(k, before, xs[..n], last, p); }
    }
  }

  /** There is only one stable order. */
  lemma {:induction false} StableSortUnique(xs: seq<Plugin>, ys: seq<Plugin>, zs: seq<Plugin>)
    requires StableSortOf(xs, ys) && StableSortOf(xs, zs)
    ensures ys == zs
  {
    StableListsEqual(ys, zs);
  }

  lemma {:induction false} StableListsEqual(ys: seq<Plugin>, zs: seq<Plugin>)
    requires Ordered(ys) && Ordered(zs)
    requires forall n :: Filter(AtPriority(n), ys) == Filter(AtPriority(n), zs)
    ensures ys == zs
  {
    if ys == [] || zs == [] {
      if ys != [] {
        HeadListed(ys);
      }
      if zs != [] {
        HeadListed(zs);
      }
    } else {
      SamePriority(ys, zs);
      SamePriority(zs, ys);
      HeadListed(ys);
      HeadListed(zs);
      assert ys[0] == zs[0];
      forall n
        ensures Filter(AtPriority(n), ys[1..]) == Filter(AtPriority(n), zs[1..])
      {
        TailFilter(n, ys);
        TailFilter(n, zs);
      }
      StableListsEqual(ys[1..], zs[1..]);
      assert ys == [ys[0]] + ys[1..] && zs == [zs[0]] + zs[1..];
    }
  }

  lemma HeadListed(ys: seq<Plugin>)
    requires ys != []
    ensures Filter(AtPriority(ys[0].priority), ys) != []
    ensures Filter(AtPriority(ys[0].priority), ys)[0] == ys[0]
  {
  }

  lemma SamePriority(ys: seq<Plugin>, zs: seq<Plugin>)
    requires ys != [] && zs != [] && Ordered(ys)
    requires forall n :: Filter(AtPriority(n), ys) == Filter(AtPriority(n), zs)
    ensures ys[0].priority <= zs[0].priority
  {
    var n := zs[0].priority;
    HeadListed(zs);
    assert zs[0] in Filter(AtPriority(n), ys);
  }

  lemma TailFilter(n: int, ys: seq<Plugin>)
    requires ys != []
    ensures Filter(AtPriority(n), ys[1..])
            == if ys[0].priority == n then Filter(AtPriority(n), ys)[1..] else Filter(AtPriority(n), ys)
  {
  }

  /** Sorting after every addition amounts to one stable sort of everything added. */
  lemma AddKeepsStable(added: seq<Plugin>, plugins: seq<Plugin>, p: Plugin, after: seq<Plugin>)
    requires StableSortOf(added, plugins) && StableSortOf(plugins + [p], after)
    ensures StableSortOf(added + [p], after)
  {
    forall n
      ensures Filter(AtPriority(n), after) == Filter(AtPriority(n), added + [p])
    {
      FilterSnoc(AtPriority(n), plugins, p);
      FilterSnoc(AtPriority(n), added, p);
    }
  }

  /** The library's stable sort. */
  method SliceStable(xs: seq<Plugin>) returns (ys: seq<Plugin>)
    ensures StableSortOf(xs, ys)
  {
    ys := [];
    for i := 0 to |xs|
      invariant StableSortOf(xs[..i], ys)
    {
      ghost var before := ys;
      InsertStable(xs[i], ys);
      ys := Insert(xs[i], ys);
      AddKeepsStable(xs[..i], before, xs[i], ys);
      assert xs[..i + 1] == xs[..i] + [xs[i]];
    }
    assert xs[..|xs|] == xs;
  }

  // ----- enabled plugins

  function IsEnabled(disabled: set<string>): Plugin -> bool { (p: Plugin) => p.name !in disabled }

  lemma {:induction false} FiltersCommute<T>(f: T -> bool, g: T -> bool, xs: seq<T>)
    ensures Filter(f, Filter(g, xs)) == Filter(g, Filter(f, xs))
  {
    if xs != [] {
      FiltersCommute(f, g, xs[1..]);
      FilterConcat(f, if g(xs[0]) then [xs[0]] else [], Filter(g, xs[1..]));
      FilterConcat(g, if f(xs[0]) then [xs[0]] else [], Filter(f, xs[1..]));
    }
  }

  lemma {:induction false} FilterOrdered(keep: Plugin -> bool, xs: seq<Plugin>)
    requires Ordered(xs)
    ensures Ordered(Filter(keep, xs))
  {
    if xs != [] {
      FilterOrdered(keep, xs[1..]);
      var rest := Filter(keep, xs[1..]);
      forall i | 0 <= i < |rest|
        ensures xs[0].priority <= rest[i].priority
      {
        assert rest[i] in rest && rest[i] in xs[1..];
      }
    }
  }

  /** Disabling plugins leaves the others in the order they would have had on their own. */
  lemma EnabledStaysStable(disabled: set<string>, added: seq<Plugin>, plugins: seq<Plugin>)
    requires StableSortOf(added, plugins)
    ensures StableSortOf(Filter(IsEnabled(disabled), added), Filter(IsEnabled(disabled), plugins))
  {
    var keep := IsEnabled(disabled);
    FilterOrdered(keep, plugins);
    forall n
      ensures Filter(AtPriority(n), Filter(keep, plugins)) == Filter(AtPriority(n), Filter(keep, added))
    {
      FiltersCommute(AtPriority(n), keep, plugins);
      FiltersCommute(AtPriority(n), keep, added);
    }
  }

  // ----- hooks

  function Wrap(h: InflectionHook, next: Next): Next { (kind, input) => h(kind, input, next) }

  /** The right fold of the hooks over the base. */
  function Chain(plugins: seq<Plugin>, base: Next): Next {
    if plugins == [] then base
    else if plugins[0].inflection.None? then Chain(plugins[1..], base)
    else Wrap(plugins[0].inflection.value, Chain(plugins[1..], base))
  }

  /** The hook of smallest priority, first registered among equals, is called first and wraps the rest. */
  lemma {:induction false} LowestPriorityOutermost(plugins: seq<Plugin>, base: Next, i: nat, kind: Kind, input: Input)
    requires Ordered(plugins)
    requires i < |plugins| && plugins[i].inflection.Some? && forall k :: 0 <= k < i ==> plugins[k].inflection.None?
    ensures Chain(plugins, base)(kind, input)
            == plugins[i].inflection.value(kind, input, Chain(plugins[i + 1..], base))
    ensures forall j :: 0 <= j < |plugins| && plugins[j].inflection.Some? ==> plugins[i].priority <= plugins[j].priority
  {
    if i > 0 {
      LowestPriorityOutermost(plugins[1..], base, i - 1, kind, input);
      assert plugins[1..][i..] == plugins[i + 1..];
    }
  }

  function RunHooks(plugins: seq<Plugin>, c: CatalogData): (CatalogData, Option<string>) {
    if plugins == [] then (c, None)
    else if plugins[0].catalog.None? then RunHooks(plugins[1..], c)
    else
      var (d, err) := plugins[0].catalog.value(c);
      if err.Some? then (d, err) else RunHooks(plugins[1..], d)
  }

  /** Without hooks names come from the base. */
  lemma {:induction false} NoHooksBase(plugins: seq<Plugin>, base: Next)
    requires forall p :: p in plugins ==> p.inflection.None?
    ensures Chain(plugins, base) == base
  {
    if plugins != [] {
      assert plugins[0] in plugins;
      NoHooksBase(plugins[1..], base);
    }
  }

  /** The catalog hooks of a list, in its order. */
  function HooksOf(plugins: seq<Plugin>): seq<CatalogHook> {
    FlatMap((p: Plugin) => if p.catalog.Some? then [p.catalog.value] else [], plugins)
  }

  /** cs are the catalogs as each of the first hooks left them, and only the last of these may have failed, with err. */
  ghost predicate Passes(hooks: seq<CatalogHook>, cs: seq<CatalogData>, err: Option<string>) {
    && 1 <= |cs| <= |hooks| + 1
    && (forall i :: 0 <= i < |cs| - 1 ==> hooks[i](cs[i]).0 == cs[i + 1])
    && (forall i :: 0 <= i < |cs| - 1 ==> hooks[i](cs[i]).1 == if i < |cs| - 2 then None else err)
    && (err.None? ==> |cs| == |hooks| + 1)
    && (err.Some? ==> |cs| > 1)
  }

  /** Each hook gets the catalog the one before it left; the first error ends the pass and is returned. */
  lemma {:induction false} HooksInTurn(plugins: seq<Plugin>, c: CatalogData) returns (cs: seq<CatalogData>)
    ensures Passes(HooksOf(plugins), cs, RunHooks(plugins, c).1)
    ensures cs[0] == c && cs[|cs| - 1] == RunHooks(plugins, c).0
  {
    if plugins == [] {
      cs := [c];
    } else if plugins[0].catalog.None? {
      assert HooksOf(plugins) == HooksOf(plugins[1..]);
      cs := HooksInTurn(plugins[1..], c);
    } else {
      var (d, err) := plugins[0].catalog.value(c);
      assert HooksOf(plugins) == [plugins[0].catalog.value] + HooksOf(plugins[1..]);
      if err.Some? {
        cs := [c, d];
      } else {
        var rest := HooksInTurn(plugins[1..], d);
        cs := [c] + rest;
        assert forall i :: 0 < i < |cs| ==> cs[i] == rest[i - 1];
        assert forall i :: 0 < i < |HooksOf(plugins)| ==> HooksOf(plugins)[i] == HooksOf(plugins[1..])[i - 1];
      }
    }
  }

  class Registry {
    var plugins: seq<Plugin>
    ghost var added: seq<Plugin>

    ghost predicate Valid()
      reads this
    {
      StableSortOf(added, plugins)
    }

    constructor ()
      ensures Valid() && added == []
    {
      plugins, added := [], [];
    }

    method Add(p: Plugin)
      requires Valid()
      modifies this
      ensures Valid() && added == old(added) + [p]
    {
      ghost var before := plugins;
      plugins := SliceStable(plugins + [p]);
      AddKeepsStable(added, before, p, plugins);
      added := added + [p];
    }

    method All() returns (out: seq<Plugin>)
      requires Valid()
      ensures out == plugins && StableSortOf(added, out)
    {
      out := plugins;
    }

    method Enabled(disabled: set<string>) returns (out: seq<Plugin>)
      requires Valid()
      ensures out == Filter(IsEnabled(disabled), plugins)
      ensures forall p :: p in out <==> p in plugins && p.name !in disabled
      ensures StableSortOf(Filter(IsEnabled(disabled), added), out)
    {
      var all := All();
      out := [];
      for i := 0 to |all|
        invariant out == Filter(IsEnabled(disabled), all[..i])
      {
        FilterSnoc(IsEnabled(disabled), all[..i], all[i]);
        assert all[..i + 1] == all[..i] + [all[i]];
        if all[i].name !in disabled {
          out := out + [all[i]];
        }
      }
      assert all[..|all|] == all;
      EnabledStaysStable(disabled, added, plugins);
    }

    /** Runs the hooks in order and stops at the first error. */
    method TransformCatalog(disabled: set<string>, c: CatalogData) returns (d: CatalogData, err: Option<string>)
      requires Valid()
      ensures (d, err) == RunHooks(Filter(IsEnabled(disabled), plugins), c)
    {
      hide Filter, StableSortOf, IsEnabled;
      var enabled := Enabled(disabled);
      d := c;
      for i := 0 to |enabled|
        invariant RunHooks(enabled, c) == RunHooks(enabled[i..], d)
      {
        assert enabled[i..][1..] == enabled[i + 1..];
        if enabled[i].catalog.Some? {
          var result := enabled[i].catalog.value(d);
          d := result.0;
          if result.1.Some? {
            return d, result.1;
          }
        }
      }
      err := None;
    }

    /** Built from the inside out. */
    method Inflector(disabled: set<string>, base: Next) returns (chain: Next)
      requires Valid()
      ensures chain == Chain(Filter(IsEnabled(disabled), plugins), base)
    {
      chain := base;
      var enabled := Enabled(disabled);
      var i := |enabled|;
      while i > 0
        invariant 0 <= i <= |enabled|
        invariant chain == Chain(enabled[i..], base)
      {
        i := i - 1;
        assert enabled[i..][1..] == enabled[i + 1..];
        if enabled[i].inflection.Some? {
          chain := Wrap(enabled[i].inflection.value, chain);
        }
      }
      assert enabled[0..] == enabled;
    }
  }
}
