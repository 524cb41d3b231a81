/** Merging update requests: the operation, the closed form of a whole batch, and what a batch still covers. */
module Merge {
  import opened Optional
  import opened Filter

  // ---------- duplicate-free union ----------

  /** Appends the strings not yet present, in order. */
  function Onto(acc: seq<string>, s: seq<string>): seq<string>
    decreases |s|
  {
    if s == [] then acc
    else Onto(if s[0] in acc then acc else acc + [s[0]], s[1..])
  }

  function Dedup(s: seq<string>): seq<string> {
    Onto([], s)
  }

  predicate Distinct(s: seq<string>) {
    forall i, j | 0 <= i < j < |s| :: s[i] != s[j]
  }

  lemma {:induction false} OntoAppend(acc: seq<string>, s: seq<string>, t: seq<string>)
    ensures Onto(acc, s + t) == Onto(Onto(acc, s), t)
    decreases |s|
  {
    if s == [] {
      assert s + t == t;
    } else {
      assert (s + t)[1..] == s[1..] + t;
      OntoAppend(if s[0] in acc then acc else acc + [s[0]], s[1..], t);
    }
  }

  lemma {:induction false} OntoSnoc(acc: seq<string>, s: seq<string>, x: string)
    ensures Onto(acc, s + [x]) == if x in Onto(acc, s) then Onto(acc, s) else Onto(acc, s) + [x]
  {
    OntoAppend(acc, s, [x]);
    var r := Onto(acc, s);
    assert Onto(r, [x]) == Onto(if x in r then r else r + [x], []);
  }

  lemma {:induction false} OntoMembers(acc: seq<string>, s: seq<string>)
    requires Distinct(acc)
    ensures Distinct(Onto(acc, s))
    ensures acc <= Onto(acc, s)
    ensures forall x :: x in Onto(acc, s) <==> x in acc || x in s
    decreases |s|
  {
    if s != [] {
      OntoMembers(if s[0] in acc then acc else acc + [s[0]], s[1..]);
      assert s == [s[0]] + s[1..];
    }
  }

  /** The union keeps exactly the elements, each once. */
  lemma DedupMembers(s: seq<string>)
    ensures Distinct(Dedup(s)) && forall x :: x in Dedup(s) <==> x in s
  {
    OntoMembers([], s);
  }

  lemma {:induction false} OntoDistinct(acc: seq<string>, s: seq<string>)
    requires Distinct(acc + s)
    ensures Onto(acc, s) == acc + s
    decreases |s|
  {
    if s == [] {
      assert acc + s == acc;
    } else {
      assert s[0] == (acc + s)[|acc|];
      assert forall i | 0 <= i < |acc| :: acc[i] == (acc + s)[i];
      assert acc + [s[0]] + s[1..] == acc + s;
      OntoDistinct(acc + [s[0]], s[1..]);
    }
  }

  /** Removing duplicates early or late makes no difference. */
  lemma {:induction false} OntoDedup(acc: seq<string>, s: seq<string>)
    requires Distinct(acc)
    ensures Onto(acc, Dedup(s)) == Onto(acc, s)
    decreases |s|
  {
    if s != [] {
      var p, x := s[..|s| - 1], s[|s| - 1];
      assert s == p + [x];
      OntoDedup(acc, p);
      OntoSnoc(acc, p, x);
      OntoSnoc([], p, x);
      if x in Dedup(p) {
        DedupMembers(p);
        OntoMembers(acc, p);
      } else {
        OntoSnoc(acc, Dedup(p), x);
      }
    }
  }

  lemma DedupLeft(s: seq<string>, t: seq<string>)
    ensures Dedup(Dedup(s) + t) == Dedup(s + t)
  {
    DedupMembers(s);
    assert [] + Dedup(s) == Dedup(s);
    OntoDistinct([], Dedup(s));
    OntoAppend([], Dedup(s), t);
    OntoAppend([], s, t);
  }

  lemma DedupRight(s: seq<string>, t: seq<string>)
    ensures Dedup(s + Dedup(t)) == Dedup(s + t)
  {
    OntoAppend([], s, t);
    OntoAppend([], s, Dedup(t));
    DedupMembers(s);
    OntoDedup(Dedup(s), t);
  }

  lemma DedupAssociative(a: seq<string>, b: seq<string>, c: seq<string>)
    ensures Dedup(Dedup(a + b) + c) == Dedup(a + Dedup(b + c))
  {
    DedupLeft(a + b, c);
    DedupRight(a, b + c);
    assert a + b + c == a + (b + c);
  }

  // ---------- merging two filters ----------

  function MergeFilters(a: FilterOptions, b: FilterOptions): FilterOptions {
    if !Scoped(a) then a
    else if !Scoped(b) then b
    else a.(ids := Dedup(a.ids + b.ids), names := Dedup(a.names + b.names))
  }

  /** The union of two lists as the code builds it, with a set of what it has seen. */
  method Union(a: seq<string>, b: seq<string>) returns (r: seq<string>)
    ensures r == Dedup(a + b)
  {
    var all := a + b;
    var seen := {};
    r := [];
    for i := 0 to |all|
      invariant r == Dedup(all[..i])
      invariant forall x :: x in seen <==> x in r
    {
      assert all[..i + 1] == all[..i] + [all[i]];
      OntoSnoc([], all[..i], all[i]);
      if all[i] !in seen {
        seen := seen + {all[i]};
        r := r + [all[i]];
      }
    }
    assert all[..|all|] == all;
  }

  method MergeFilterOptions(a: FilterOptions, b: FilterOptions) returns (r: FilterOptions)
    ensures r == MergeFilters(a, b)
  {
    var aScoped := |a.ids| > 0 || |a.names| > 0;
    var bScoped := |b.ids| > 0 || |b.names| > 0;
    if !aScoped {
      return a;
    }
    if !bScoped {
      return b;
    }
    var ids := Union(a.ids, b.ids);
    var names := Union(a.names, b.names);
    return FilterOptions(names, a.labels, ids, a.types, a.excludeNames, a.excludeWithLabel);
  }

  lemma MergedScope(a: FilterOptions, b: FilterOptions)
    ensures Scoped(MergeFilters(a, b)) <==> Scoped(a) && Scoped(b)
    ensures Scoped(a) && Scoped(b) ==>
      && (MergeFilters(a, b).ids == [] <==> a.ids == [] && b.ids == [])
      && (MergeFilters(a, b).names == [] <==> a.names == [] && b.names == [])
  {
    DedupMembers(a.ids + b.ids);
    DedupMembers(a.names + b.names);
    if a.ids != [] { assert a.ids[0] in a.ids + b.ids; }
    if b.ids != [] { assert b.ids[0] in a.ids + b.ids; }
    if a.names != [] { assert a.names[0] in a.names + b.names; }
    if b.names != [] { assert b.names[0] in a.names + b.names; }
    if MergeFilters(a, b).ids != [] { assert MergeFilters(a, b).ids[0] in MergeFilters(a, b).ids; }
    if MergeFilters(a, b).names != [] { assert MergeFilters(a, b).names[0] in MergeFilters(a, b).names; }
  }

  lemma MergeAssociative(a: FilterOptions, b: FilterOptions, c: FilterOptions)
    ensures MergeFilters(MergeFilters(a, b), c) == MergeFilters(a, MergeFilters(b, c))
  {
    MergedScope(a, b);
    MergedScope(b, c);
    DedupAssociative(a.ids, b.ids, c.ids);
    DedupAssociative(a.names, b.names, c.names);
  }

  // ---------- a whole batch ----------

  /** What the debouncer computes: the members merged one after the other. */
  function FoldFilters(batch: seq<FilterOptions>): FilterOptions
    requires batch != []
  {
    if |batch| == 1 then batch[0]
    else MergeFilters(FoldFilters(batch[..|batch| - 1]), batch[|batch| - 1])
  }

  function FirstUnscoped(batch: seq<FilterOptions>): Option<FilterOptions> {
    if batch == [] then None
    else if !Scoped(batch[0]) then Some(batch[0])
    else FirstUnscoped(batch[1..])
  }

  function AllIds(batch: seq<FilterOptions>): seq<string> {
    if batch == [] then [] else batch[0].ids + AllIds(batch[1..])
  }

  function AllNames(batch: seq<FilterOptions>): seq<string> {
    if batch == [] then [] else batch[0].names + AllNames(batch[1..])
  }

  /** The closed form: the first full scan if there is one, otherwise the union of what is named. */
  function Summary(batch: seq<FilterOptions>): FilterOptions
    requires batch != []
  {
    var full := FirstUnscoped(batch);
    if full.Some? then full.value
    else if |batch| == 1 then batch[0]
    else batch[0].(ids := Dedup(AllIds(batch)), names := Dedup(AllNames(batch)))
  }

  lemma {:induction false} SnocBatch(batch: seq<FilterOptions>, x: FilterOptions)
    ensures AllIds(batch + [x]) == AllIds(batch) + x.ids
    ensures AllNames(batch + [x]) == AllNames(batch) + x.names
    ensures FirstUnscoped(batch + [x]) ==
      if FirstUnscoped(batch).Some? then FirstUnscoped(batch) else if !Scoped(x) then Some(x) else None
  {
    if batch != [] {
      assert (batch + [x])[1..] == batch[1..] + [x];
      SnocBatch(batch[1..], x);
    }
  }

  lemma {:induction false} FirstUnscopedMember(batch: seq<FilterOptions>)
    ensures FirstUnscoped(batch) == None <==> forall f | f in batch :: Scoped(f)
    ensures FirstUnscoped(batch).Some? ==> FirstUnscoped(batch).value in batch && !Scoped(FirstUnscoped(batch).value)
  {
    if batch != [] {
      FirstUnscopedMember(batch[1..]);
      assert batch == [batch[0]] + batch[1..];
    }
  }

  /** Merging one after the other and summing up the batch come to the same. */
  lemma {:induction false} FoldIsSummary(batch: seq<FilterOptions>)
    requires batch != []
    ensures FoldFilters(batch) == Summary(batch)
    ensures Scoped(FoldFilters(batch)) <==> forall f | f in batch :: Scoped(f)
  {
    if |batch| == 1 {
      assert batch == [batch[0]] && FirstUnscoped(batch[1..]) == None;
    } else {
      var p, x := batch[..|batch| - 1], batch[|batch| - 1];
      assert batch == p + [x] && batch[0] == p[0];
      FoldIsSummary(p);
      SnocBatch(p, x);
      FirstUnscopedMember(p);
      FirstUnscopedMember(batch);
      MergedScope(FoldFilters(p), x);
      if FirstUnscoped(batch) == None {
        SnocUnion(p, x);
        assert p[0] in p;
        var f := Summary(p);
        assert f == p[0].(ids := f.ids, names := f.names);
      }
    }
  }

  /** One more member of a batch without a full scan. */
  lemma SnocUnion(p: seq<FilterOptions>, x: FilterOptions)
    requires p != [] && FirstUnscoped(p) == None
    ensures Dedup(Summary(p).ids + x.ids) == Dedup(AllIds(p) + x.ids)
    ensures Dedup(Summary(p).names + x.names) == Dedup(AllNames(p) + x.names)
  {
    if |p| == 1 {
      assert AllIds(p[1..]) == [] && AllNames(p[1..]) == [];
      assert AllIds(p) == p[0].ids + [] == p[0].ids;
      assert AllNames(p) == p[0].names + [] == p[0].names;
    } else {
      DedupLeft(AllIds(p), x.ids);
      DedupLeft(AllNames(p), x.names);
    }
  }

  // ---------- what a batch covers ----------

  /** The members agree on everything but ids and names. */
  ghost predicate SameGlobals(batch: seq<FilterOptions>) {
    forall f, g | f in batch && g in batch ::
      && f.labels == g.labels && f.types == g.types
      && f.excludeNames == g.excludeNames && f.excludeWithLabel == g.excludeWithLabel
  }

  /** Whatever the matching rules, each container that some member selects is selected by `d`. */
  ghost predicate Covers(d: FilterOptions, batch: seq<FilterOptions>) {
    forall m: Matching, c: Container, f | f in batch && Selects(m, f, c) :: Selects(m, d, c)
  }

  /** Either some member scans everything, or the members all name ids or none does, and likewise names. */
  ghost predicate Uniform(batch: seq<FilterOptions>) {
    || (exists f | f in batch :: !Scoped(f))
    || (&& (forall f, g | f in batch && g in batch :: f.ids == [] <==> g.ids == [])
        && (forall f, g | f in batch && g in batch :: f.names == [] <==> g.names == []))
  }

  lemma {:induction false} AllIdsMembers(batch: seq<FilterOptions>)
    ensures forall x :: x in AllIds(batch) <==> exists f :: f in batch && x in f.ids
    ensures forall x :: x in AllNames(batch) <==> exists f :: f in batch && x in f.names
  {
    if batch != [] {
      AllIdsMembers(batch[1..]);
      assert batch == [batch[0]] + batch[1..];
      forall x ensures x in AllIds(batch) <==> exists f :: f in batch && x in f.ids {
        if x in batch[0].ids { assert batch[0] in batch; }
      }
      forall x ensures x in AllNames(batch) <==> exists f :: f in batch && x in f.names {
        if x in batch[0].names { assert batch[0] in batch; }
      }
    }
  }

  /** Matching rules under which names always match and ids never do, or the other way round. */
  function OneSided(byName: bool): Matching {
    Matching((n, c) => byName, (i, c) => !byName, (l, c) => true, p => false, (p, n) => false)
  }

  /** A container of a type and without labels. */
  function Plain(types: seq<string>): Container {
    Container("", "", "", if types == [] then "" else types[0], map[])
  }

  lemma OneSidedSelects(byName: bool, f: FilterOptions)
    ensures Selects(OneSided(byName), f, Plain(f.types)) <==> if byName then f.ids == [] else f.names == []
  {
    if f.names != [] { assert f.names[0] in f.names; }
    if f.ids != [] { assert f.ids[0] in f.ids; }
  }

  /** What the dispatched request of a batch without a full scan names. */
  lemma SummaryNames(batch: seq<FilterOptions>)
    requires batch != [] && forall f | f in batch :: Scoped(f)
    ensures forall x :: x in FoldFilters(batch).ids <==> exists f :: f in batch && x in f.ids
    ensures forall x :: x in FoldFilters(batch).names <==> exists f :: f in batch && x in f.names
    ensures FoldFilters(batch).labels == batch[0].labels && FoldFilters(batch).types == batch[0].types
    ensures FoldFilters(batch).excludeNames == batch[0].excludeNames
    ensures FoldFilters(batch).excludeWithLabel == batch[0].excludeWithLabel
  {
    FoldIsSummary(batch);
    FirstUnscopedMember(batch);
    if |batch| == 1 {
      assert batch == [batch[0]];
    } else {
      AllIdsMembers(batch);
      DedupMembers(AllIds(batch));
      DedupMembers(AllNames(batch));
    }
  }

  lemma UniformCovers(batch: seq<FilterOptions>, m: Matching, c: Container, f: FilterOptions)
    requires batch != [] && SameGlobals(batch) && Uniform(batch) && f in batch && Selects(m, f, c)
    ensures Selects(m, FoldFilters(batch), c)
  {
    var d := FoldFilters(batch);
    assert batch[0] in batch;
    FoldIsSummary(batch);
    FirstUnscopedMember(batch);
    if forall g | g in batch :: Scoped(g) {
      SummaryNames(batch);
      if d.ids != [] {
        assert d.ids[0] in d.ids;
        var i :| i in f.ids && m.id(i, c);
        assert i in d.ids;
      }
      if d.names != [] {
        assert d.names[0] in d.names;
        var n :| n in f.names && m.name(n, c);
        assert n in d.names;
      }
    }
  }

  /** Two members of which one names what the other does not, by ids or by names. */
  predicate Differ(byName: bool, f: FilterOptions, g: FilterOptions) {
    if byName then f.ids == [] && g.ids != [] else f.names == [] && g.names != []
  }

  lemma DifferingMembers(batch: seq<FilterOptions>) returns (byName: bool, f: FilterOptions, g: FilterOptions)
    requires !Uniform(batch)
    ensures f in batch && g in batch && Differ(byName, f, g)
  {
    byName := exists f, g :: f in batch && g in batch && f.ids == [] && g.ids != [];
    f, g :| f in batch && g in batch && Differ(byName, f, g);
  }

  /** A container that one member selects and the dispatched request does not. */
  lemma DifferenceLoses(batch: seq<FilterOptions>, byName: bool, f: FilterOptions, g: FilterOptions)
    requires batch != [] && SameGlobals(batch) && (forall h | h in batch :: Scoped(h))
    requires f in batch && g in batch && Differ(byName, f, g)
    ensures Selects(OneSided(byName), f, Plain(f.types))
    ensures !Selects(OneSided(byName), FoldFilters(batch), Plain(f.types))
  {
    var d := FoldFilters(batch);
    SummaryNames(batch);
    assert batch[0] in batch;
    assert d.types == f.types;
    assert if byName then g.ids[0] in g.ids else g.names[0] in g.names;
    assert if byName then g.ids[0] in d.ids else g.names[0] in d.names;
    OneSidedSelects(byName, f);
    OneSidedSelects(byName, d);
  }

  lemma NotUniformLoses(batch: seq<FilterOptions>)
    requires batch != [] && SameGlobals(batch) && !Uniform(batch)
    ensures !Covers(FoldFilters(batch), batch)
  {
    var byName, f, g := DifferingMembers(batch);
    DifferenceLoses(batch, byName, f, g);
  }

  /**
   The request that a batch is dispatched as selects everything its members select exactly when the batch is uniform.
   */
  lemma CoverageIffUniform(batch: seq<FilterOptions>)
    requires batch != [] && SameGlobals(batch)
    ensures Covers(FoldFilters(batch), batch) <==> Uniform(batch)
  {
    if Uniform(batch) {
      forall m: Matching, c: Container, f | f in batch && Selects(m, f, c) ensures Selects(m, FoldFilters(batch), c) {
        UniformCovers(batch, m, c, f);
      }
    } else {
      NotUniformLoses(batch);
    }
  }

  /** Stale services are looked for after a batch exactly when its first full scan carries no labels. */
  lemma StaleRemovalOfBatch(batch: seq<FilterOptions>)
    requires batch != []
    ensures IsEmpty(FoldFilters(batch)) <==> FirstUnscoped(batch).Some? && FirstUnscoped(batch).value.labels == []
    ensures (forall f | f in batch && !Scoped(f) :: f.labels == []) ==>
      (IsEmpty(FoldFilters(batch)) <==> exists f | f in batch :: !Scoped(f))
  {
    FoldIsSummary(batch);
    FirstUnscopedMember(batch);
  }
}
