/** The check whether a software update list contains an update of the container thin-edge itself runs in. */
module SelfCheck {
  import opened Optional

  datatype SoftwareItem = SoftwareItem(name: string, version: string, url: string, action: string)

  datatype SoftwareModule = SoftwareModule(kind: string, items: seq<SoftwareItem>)

  datatype Outcome =
    | Refused(item: SoftwareItem)     // exit code 2: the own container would be removed
    | NoSelfUpdate                    // exit code 1
    | SelfUpdate(containerName: string, image: string, url: string, rest: seq<SoftwareModule>)

  const SELF := "self"
  const CONTAINER := "container"
  const INSTALL := "install"
  const REMOVE := "remove"

  /** The item is about the container thin-edge runs in. */
  predicate Concerns(kind: string, item: SoftwareItem, self: string) {
    kind == SELF || (kind == CONTAINER && item.name == self)
  }

  // ---------- what the list says about the own container ----------

  function OwnItems(kind: string, items: seq<SoftwareItem>, self: string): seq<SoftwareItem> {
    if items == [] then []
    else
      var n := |items| - 1;
      var rest := OwnItems(kind, items[..n], self);
      if Concerns(kind, items[n], self) then rest + [items[n]] else rest
  }

  /** All items about the own container, in the order they are visited. */
  function SelfItems(list: seq<SoftwareModule>, self: string): seq<SoftwareItem> {
    if list == [] then []
    else
      var n := |list| - 1;
      SelfItems(list[..n], self) + OwnItems(list[n].kind, list[n].items, self)
  }

  predicate Has(items: seq<SoftwareItem>, action: string) {
    exists k | 0 <= k < |items| :: items[k].action == action
  }

  predicate First(items: seq<SoftwareItem>, action: string, item: SoftwareItem) {
    exists k | 0 <= k < |items| :: items[k] == item && item.action == action && !Has(items[..k], action)
  }

  predicate Last(items: seq<SoftwareItem>, action: string, item: SoftwareItem) {
    exists k | 0 <= k < |items| :: items[k] == item && item.action == action && !Has(items[k + 1..], action)
  }

  // ---------- what is left of the list ----------

  function Kept(kind: string, items: seq<SoftwareItem>, self: string): seq<SoftwareItem> {
    if items == [] then []
    else
      var n := |items| - 1;
      var rest := Kept(kind, items[..n], self);
      if Concerns(kind, items[n], self) then rest else rest + [items[n]]
  }

  /** What is left of one module: a container module without the own items, unless none is left. */
  function Remaining(m: SoftwareModule, self: string): seq<SoftwareModule> {
    if m.kind == SELF then []
    else if m.kind == CONTAINER then
      var kept := Kept(m.kind, m.items, self);
      if kept == [] then [] else [SoftwareModule(m.kind, kept)]
    else [m]
  }

  function Others(list: seq<SoftwareModule>, self: string): seq<SoftwareModule> {
    if list == [] then [] else Others(list[..|list| - 1], self) + Remaining(list[|list| - 1], self)
  }

  // ---------- the check ----------

  lemma OwnItemsSnoc(kind: string, items: seq<SoftwareItem>, j: nat, self: string)
    requires j < |items|
    ensures var own := OwnItems(kind, items[..j], self);
      OwnItems(kind, items[..j + 1], self) == if Concerns(kind, items[j], self) then own + [items[j]] else own
    ensures var kept := Kept(kind, items[..j], self);
      Kept(kind, items[..j + 1], self) == if Concerns(kind, items[j], self) then kept else kept + [items[j]]
  {
    assert items[..j + 1][..j] == items[..j];
  }

  lemma ListSnoc(list: seq<SoftwareModule>, i: nat, self: string)
    requires i < |list|
    ensures SelfItems(list[..i + 1], self) == SelfItems(list[..i], self) + OwnItems(list[i].kind, list[i].items, self)
    ensures Others(list[..i + 1], self) == Others(list[..i], self) + Remaining(list[i], self)
  {
    assert list[..i + 1][..i] == list[..i];
  }

  lemma HasSnoc(items: seq<SoftwareItem>, next: SoftwareItem, action: string)
    ensures Has(items + [next], action) <==> Has(items, action) || next.action == action
  {
    var all := items + [next];
    assert all[|items|] == next;
    if Has(items, action) {
      var k :| 0 <= k < |items| && items[k].action == action;
      assert all[k] == items[k];
    }
  }

  lemma FirstFound(seen: seq<SoftwareItem>, item: SoftwareItem, all: seq<SoftwareItem>, action: string)
    requires seen + [item] <= all && !Has(seen, action) && item.action == action
    ensures First(all, action, item)
  {
    assert all[|seen|] == (seen + [item])[|seen|];
    assert all[..|seen|] == (seen + [item])[..|seen|] == seen;
  }

  lemma PrefixOfAppend(a: seq<SoftwareItem>, b: seq<SoftwareItem>, c: seq<SoftwareItem>, all: seq<SoftwareItem>)
    requires b <= c && a + c <= all
    ensures a + b <= all
  {
  }

  lemma LastSnoc(items: seq<SoftwareItem>, next: SoftwareItem, action: string, item: SoftwareItem)
    ensures next.action == action ==> Last(items + [next], action, next)
    ensures next.action != action && Last(items, action, item) ==> Last(items + [next], action, item)
  {
    var all := items + [next];
    if next.action == action {
      assert all[|items|] == next && all[|items| + 1..] == [];
    } else if Last(items, action, item) {
      var k :| 0 <= k < |items| && items[k] == item && item.action == action && !Has(items[k + 1..], action);
      assert all[k] == item && all[k + 1..] == items[k + 1..] + [next];
      HasSnoc(items[k + 1..], next, action);
    }
  }

  /** What was visited first stays a prefix of all that concerns the own container. */
  lemma {:induction false} OwnItemsGrow(kind: string, items: seq<SoftwareItem>, n: nat, self: string)
    requires n <= |items|
    ensures OwnItems(kind, items[..n], self) <= OwnItems(kind, items, self)
    decreases |items|
  {
    if n == |items| {
      assert items[..n] == items;
    } else {
      assert items[..|items| - 1][..n] == items[..n];
      OwnItemsGrow(kind, items[..|items| - 1], n, self);
    }
  }

  lemma {:induction false} SelfItemsGrow(list: seq<SoftwareModule>, n: nat, self: string)
    requires n <= |list|
    ensures SelfItems(list[..n], self) <= SelfItems(list, self)
    decreases |list|
  {
    if n == |list| {
      assert list[..n] == list;
    } else {
      assert list[..|list| - 1][..n] == list[..n];
      SelfItemsGrow(list[..|list| - 1], n, self);
    }
  }

  /** The first removal of the own container on the way is the first of the whole list. */
  lemma FirstRemovalFound(list: seq<SoftwareModule>, self: string, i: nat, j: nat)
    requires i < |list| && j < |list[i].items|
    requires Concerns(list[i].kind, list[i].items[j], self) && list[i].items[j].action == REMOVE
    requires !Has(SelfItems(list[..i], self) + OwnItems(list[i].kind, list[i].items[..j], self), REMOVE)
    ensures First(SelfItems(list, self), REMOVE, list[i].items[j])
  {
    var m, item := list[i], list[i].items[j];
    var before, own := SelfItems(list[..i], self), OwnItems(m.kind, m.items[..j], self);
    OwnItemsSnoc(m.kind, m.items, j, self);
    OwnItemsGrow(m.kind, m.items, j + 1, self);
    ListSnoc(list, i, self);
    SelfItemsGrow(list, i + 1, self);
    PrefixOfAppend(before, own + [item], OwnItems(m.kind, m.items, self), SelfItems(list, self));
    assert before + (own + [item]) == before + own + [item];
    FirstFound(before + own, item, SelfItems(list, self), REMOVE);
  }

  /** What the loops know of the items seen so far: no removal, and the last installation if there was one. */
  ghost predicate Sighted(seen: seq<SoftwareItem>, includes: bool, found: SoftwareItem) {
    && !Has(seen, REMOVE)
    && (includes <==> Has(seen, INSTALL))
    && (includes ==> Last(seen, INSTALL, found))
  }

  lemma SightedSnoc(seen: seq<SoftwareItem>, item: SoftwareItem, includes: bool, found: SoftwareItem)
    requires Sighted(seen, includes, found) && item.action != REMOVE
    ensures item.action == INSTALL ==> Sighted(seen + [item], true, item)
    ensures item.action != INSTALL ==> Sighted(seen + [item], includes, found)
  {
    HasSnoc(seen, item, REMOVE);
    HasSnoc(seen, item, INSTALL);
    LastSnoc(seen, item, INSTALL, found);
  }

  lemma SightedNext(before: seq<SoftwareItem>, kind: string, items: seq<SoftwareItem>, j: nat, self: string,
                    includes: bool, found: SoftwareItem)
    requires j < |items| && Concerns(kind, items[j], self) && items[j].action != REMOVE
    requires Sighted(before + OwnItems(kind, items[..j], self), includes, found)
    ensures var install := items[j].action == INSTALL;
      Sighted(before + OwnItems(kind, items[..j + 1], self), includes || install, if install then items[j] else found)
  {
    OwnItemsSnoc(kind, items, j, self);
    var own := OwnItems(kind, items[..j], self);
    assert before + (own + [items[j]]) == (before + own) + [items[j]];
    SightedSnoc(before + own, items[j], includes, found);
  }

  lemma {:induction false} OwnItemsNone(kind: string, items: seq<SoftwareItem>, self: string)
    requires kind != SELF && kind != CONTAINER
    ensures OwnItems(kind, items, self) == []
  {
    if items != [] {
      OwnItemsNone(kind, items[..|items| - 1], self);
    }
  }

  /** One module of type self: every item of it is about the own container. */
  method CheckSelfModule(list: seq<SoftwareModule>, self: string, i: nat, includes: bool, found: SoftwareItem)
    returns (refused: Option<SoftwareItem>, includes': bool, found': SoftwareItem)
    requires i < |list| && list[i].kind == SELF && Sighted(SelfItems(list[..i], self), includes, found)
    ensures refused.Some? ==> First(SelfItems(list, self), REMOVE, refused.value)
    ensures refused.None? ==> Sighted(SelfItems(list[..i + 1], self), includes', found')
  {
    ListSnoc(list, i, self);
    ghost var before := SelfItems(list[..i], self);
    var items := list[i].items;
    includes', found' := includes, found;
    assert before + [] == before;
    for j := 0 to |items|
      invariant Sighted(before + OwnItems(SELF, items[..j], self), includes', found')
    {
      var item := items[j];
      if item.action == REMOVE {
        FirstRemovalFound(list, self, i, j);
        return Some(item), includes', found';
      }
      SightedNext(before, SELF, items, j, self, includes', found');
      if item.action == INSTALL {
        found', includes' := item, true;
      }
    }
    assert items[..|items|] == items;
    return None, includes', found';
  }

  /** One module of type container: the items about the own container are taken out. */
  method CheckContainerModule(list: seq<SoftwareModule>, self: string, i: nat, includes: bool, found: SoftwareItem)
    returns (refused: Option<SoftwareItem>, includes': bool, found': SoftwareItem, filtered: seq<SoftwareItem>)
    requires i < |list| && list[i].kind == CONTAINER && Sighted(SelfItems(list[..i], self), includes, found)
    ensures refused.Some? ==> First(SelfItems(list, self), REMOVE, refused.value)
    ensures refused.None? ==>
      Sighted(SelfItems(list[..i + 1], self), includes', found') && filtered == Kept(CONTAINER, list[i].items, self)
  {
    ListSnoc(list, i, self);
    ghost var before := SelfItems(list[..i], self);
    var items := list[i].items;
    includes', found', filtered := includes, found, [];
    assert before + [] == before;
    for j := 0 to |items|
      invariant Sighted(before + OwnItems(CONTAINER, items[..j], self), includes', found')
      invariant filtered == Kept(CONTAINER, items[..j], self)
    {
      var item := items[j];
      OwnItemsSnoc(CONTAINER, items, j, self);
      if self == item.name {
        if item.action == REMOVE {
          FirstRemovalFound(list, self, i, j);
          return Some(item), includes', found', filtered;
        }
        SightedNext(before, CONTAINER, items, j, self, includes', found');
        if item.action == INSTALL {
          found', includes' := item, true;
        }
      } else {
        filtered := filtered + [item];
      }
    }
    assert items[..|items|] == items;
    return None, includes', found', filtered;
  }

  /**
   The update is refused exactly if some item would remove the own container, and without an installation of it
   there is no self update; otherwise the last installation is reported, with everything else left in the list.
   */
  method Check(list: seq<SoftwareModule>, self: string) returns (r: Outcome)
    ensures r.Refused? <==> Has(SelfItems(list, self), "remove")
    ensures r.NoSelfUpdate? <==> !Has(SelfItems(list, self), "remove") && !Has(SelfItems(list, self), "install")
    ensures r.Refused? ==> First(SelfItems(list, self), "remove", r.item)
    ensures r.SelfUpdate? ==>
      && Last(SelfItems(list, self), "install", SoftwareItem(r.containerName, r.image, r.url, "install"))
      && r.rest == Others(list, self)
  {
    var includes := false;
    var output: seq<SoftwareModule> := [];
    var found := SoftwareItem("", "", "", "");
    for i := 0 to |list|
      invariant Sighted(SelfItems(list[..i], self), includes, found)
      invariant output == Others(list[..i], self)
    {
      var m := list[i];
      ListSnoc(list, i, self);
      var refused: Option<SoftwareItem> := None;
      if m.kind == SELF {
        refused, includes, found := CheckSelfModule(list, self, i, includes, found);
      } else if m.kind == CONTAINER {
        var filtered;
        refused, includes, found, filtered := CheckContainerModule(list, self, i, includes, found);
        if refused.None? && |filtered| > 0 {
          output := output + [SoftwareModule(m.kind, filtered)];
        }
      } else {
        OwnItemsNone(m.kind, m.items, self);
        assert SelfItems(list[..i], self) + [] == SelfItems(list[..i], self);
        output := output + [m];
      }
      if refused.Some? {
        return Refused(refused.value);
      }
    }
    assert list[..|list|] == list;
    if !includes {
      return NoSelfUpdate;
    }
    return SelfUpdate(found.name, found.version, found.url, output);
  }

  // ---------- what is left is the list without the own container ----------

  /** The items of a list with the type of their module, in order. */
  function Labelled(list: seq<SoftwareModule>): seq<(string, SoftwareItem)> {
    if list == [] then []
    else Labelled(list[..|list| - 1]) + LabelledItems(list[|list| - 1].kind, list[|list| - 1].items)
  }

  function LabelledItems(kind: string, items: seq<SoftwareItem>): seq<(string, SoftwareItem)> {
    seq(|items|, k requires 0 <= k < |items| => (kind, items[k]))
  }

  function WithoutSelf(items: seq<(string, SoftwareItem)>, self: string): seq<(string, SoftwareItem)> {
    if items == [] then []
    else
      var n := |items| - 1;
      var rest := WithoutSelf(items[..n], self);
      if Concerns(items[n].0, items[n].1, self) then rest else rest + [items[n]]
  }

  lemma {:induction false} WithoutSelfAppend(a: seq<(string, SoftwareItem)>, b: seq<(string, SoftwareItem)>,
                                             self: string)
    ensures WithoutSelf(a + b, self) == WithoutSelf(a, self) + WithoutSelf(b, self)
  {
    if b == [] {
      assert a + b == a;
    } else {
      var n := |b| - 1;
      assert (a + b)[..|a| + n] == a + b[..n];
      WithoutSelfAppend(a, b[..n], self);
    }
  }

  lemma {:induction false} KeptIsWithoutSelf(kind: string, items: seq<SoftwareItem>, self: string)
    ensures LabelledItems(kind, Kept(kind, items, self)) == WithoutSelf(LabelledItems(kind, items), self)
  {
    if items != [] {
      var n := |items| - 1;
      KeptIsWithoutSelf(kind, items[..n], self);
      assert LabelledItems(kind, items)[..n] == LabelledItems(kind, items[..n]);
    }
  }

  lemma {:induction false} KeptExtremes(kind: string, items: seq<SoftwareItem>, self: string)
    ensures kind == SELF ==> Kept(kind, items, self) == []
    ensures kind != SELF && kind != CONTAINER ==> Kept(kind, items, self) == items
  {
    if items != [] {
      KeptExtremes(kind, items[..|items| - 1], self);
    }
  }

  lemma LabelledRemaining(m: SoftwareModule, self: string)
    ensures Labelled(Remaining(m, self)) == WithoutSelf(LabelledItems(m.kind, m.items), self)
  {
    KeptIsWithoutSelf(m.kind, m.items, self);
    KeptExtremes(m.kind, m.items, self);
    var r := Remaining(m, self);
    if r != [] {
      assert r[..0] == [];
      assert Labelled(r) == LabelledItems(r[0].kind, r[0].items);
    }
  }

  lemma Associative<T>(a: seq<T>, b: seq<T>, c: seq<T>)
    ensures a + b + c == a + (b + c)
  {
  }

  lemma LabelledSnoc(a: seq<SoftwareModule>, m: SoftwareModule)
    ensures Labelled(a + [m]) == Labelled(a) + LabelledItems(m.kind, m.items)
  {
  }

  lemma LabelledOne(m: SoftwareModule)
    ensures Labelled([m]) == LabelledItems(m.kind, m.items)
  {
    LabelledSnoc([], m);
    assert [] + [m] == [m];
  }

  lemma LabelledRest(a: seq<SoftwareModule>, m: SoftwareModule, self: string)
    ensures Labelled(a + Remaining(m, self)) == Labelled(a) + Labelled(Remaining(m, self))
  {
    var r := Remaining(m, self);
    if r == [] {
      assert a + r == a;
    } else {
      assert r == [r[0]];
      LabelledSnoc(a, r[0]);
      LabelledOne(r[0]);
    }
  }

  /** What is left holds every item that is not about the own container, once, in order and under its type. */
  lemma {:induction false} OthersAreTheRest(list: seq<SoftwareModule>, self: string)
    ensures Labelled(Others(list, self)) == WithoutSelf(Labelled(list), self)
  {
    if list != [] {
      var n := |list| - 1;
      OthersAreTheRest(list[..n], self);
      LabelledRest(Others(list[..n], self), list[n], self);
      LabelledRemaining(list[n], self);
      WithoutSelfAppend(Labelled(list[..n]), LabelledItems(list[n].kind, list[n].items), self);
    }
  }

  /** Modules are neither merged nor split: each is handled on its own. */
  lemma OthersAppend(a: seq<SoftwareModule>, b: seq<SoftwareModule>, self: string)
    ensures Others(a + b, self) == Others(a, self) + Others(b, self)
  {
    assert a + b[..0] == a;
    for k := 0 to |b|
      invariant Others(a + b[..k], self) == Others(a, self) + Others(b[..k], self)
    {
      OthersAppendOne(a, b[..k], b[k], self);
      assert b[..k + 1] == b[..k] + [b[k]];
    }
    assert b[..|b|] == b;
  }

  lemma OthersAppendOne(a: seq<SoftwareModule>, b: seq<SoftwareModule>, m: SoftwareModule, self: string)
    requires Others(a + b, self) == Others(a, self) + Others(b, self)
    ensures Others(a + (b + [m]), self) == Others(a, self) + Others(b + [m], self)
  {
    assert a + (b + [m]) == a + b + [m];
    OthersSnoc(a + b, m, self);
    OthersSnoc(b, m, self);
    Associative(Others(a, self), Others(b, self), Remaining(m, self));
  }

  lemma OthersSnoc(a: seq<SoftwareModule>, m: SoftwareModule, self: string)
    ensures Others(a + [m], self) == Others(a, self) + Remaining(m, self)
  {
  }

  lemma {:induction false} KeptIsForeign(kind: string, items: seq<SoftwareItem>, self: string)
    ensures forall item | item in Kept(kind, items, self) :: !Concerns(kind, item, self)
  {
    if items != [] {
      KeptIsForeign(kind, items[..|items| - 1], self);
    }
  }

  lemma {:induction false} ForeignIsNotOwn(kind: string, items: seq<SoftwareItem>, self: string)
    requires forall item | item in items :: !Concerns(kind, item, self)
    ensures OwnItems(kind, items, self) == [] && Kept(kind, items, self) == items
  {
    if items != [] {
      ForeignIsNotOwn(kind, items[..|items| - 1], self);
    }
  }

  lemma RemainingIsClean(m: SoftwareModule, self: string)
    ensures forall r | r in Remaining(m, self) ::
      OwnItems(r.kind, r.items, self) == [] && Remaining(r, self) == [r]
  {
    KeptIsForeign(m.kind, m.items, self);
    KeptExtremes(m.kind, m.items, self);
    forall r | r in Remaining(m, self)
      ensures OwnItems(r.kind, r.items, self) == [] && Remaining(r, self) == [r]
    {
      ForeignIsNotOwn(r.kind, r.items, self);
    }
  }

  /** Checking what is left finds no self update in it and leaves it as it is. */
  lemma {:induction false} OthersAreClean(list: seq<SoftwareModule>, self: string)
    ensures SelfItems(Others(list, self), self) == []
    ensures Others(Others(list, self), self) == Others(list, self)
  {
    if list != [] {
      var n := |list| - 1;
      var rest, r := Others(list[..n], self), Remaining(list[n], self);
      OthersAreClean(list[..n], self);
      RemainingIsClean(list[n], self);
      if r == [] {
        assert rest + r == rest;
      } else {
        assert (rest + r)[..|rest|] == rest;
        assert r[0] in r;
      }
    }
  }

  // ---------- on the list itself ----------

  lemma {:induction false} OwnItemsAre(kind: string, items: seq<SoftwareItem>, self: string)
    ensures forall item :: item in OwnItems(kind, items, self) <==>
      item in items && (kind == "self" || (kind == "container" && item.name == self))
  {
    if items != [] {
      OwnItemsAre(kind, items[..|items| - 1], self);
    }
  }

  /** What is about the own container: everything of type self, and what bears its name among the containers. */
  lemma {:induction false} SelfItemsAre(list: seq<SoftwareModule>, self: string, item: SoftwareItem)
    ensures item in SelfItems(list, self) <==>
      exists m :: m in list && item in m.items && (m.kind == "self" || (m.kind == "container" && item.name == self))
  {
    if list != [] {
      var p, m := list[..|list| - 1], list[|list| - 1];
      SelfItemsAre(p, self, item);
      OwnItemsAre(m.kind, m.items, self);
      assert forall x :: x in list <==> x in p || x == m;
    }
  }

  lemma {:induction false} KeptAre(kind: string, items: seq<SoftwareItem>, self: string)
    requires kind == "container"
    ensures forall item :: item in Kept(kind, items, self) <==> item in items && item.name != self
  {
    if items != [] {
      KeptAre(kind, items[..|items| - 1], self);
    }
  }

  /**
   What is left, module by module: none of type self; of the containers only modules with some item left, and these are
   the ones of other names; all other modules as they were.
   */
  lemma {:induction false} NoneLeftEmpty(list: seq<SoftwareModule>, self: string, r: SoftwareModule)
    requires r in Others(list, self)
    ensures r.kind != "self"
    ensures r.kind != "container" ==> r in list
    ensures r.kind == "container" ==>
      && r.items != []
      && exists m :: m in list && m.kind == "container"
           && forall item :: item in r.items <==> item in m.items && item.name != self
  {
    var p, m := list[..|list| - 1], list[|list| - 1];
    assert m in list && forall x | x in p :: x in list;
    if r in Others(p, self) {
      NoneLeftEmpty(p, self, r);
    } else if m.kind == "container" {
      KeptAre(m.kind, m.items, self);
    }
  }
}
