/**
 Filter options and the containers they select.  How the engine matches a name,
 an id or the labels is left abstract; what matters is that criteria of one key
 are alternatives and that the keys restrict each other.
 */
module Filter {

  datatype FilterOptions = FilterOptions(
    names: seq<string>,
    labels: seq<string>,
    ids: seq<string>,
    types: seq<string>,
    excludeNames: seq<string>,
    excludeWithLabel: seq<string>)

  const NO_FILTER := FilterOptions([], [], [], [], [], [])

  predicate IsEmpty(fo: FilterOptions) {
    |fo.names| == 0 && |fo.labels| == 0 && |fo.ids| == 0
  }

  /** Whether the options name particular containers. */
  predicate Scoped(fo: FilterOptions) {
    |fo.ids| > 0 || |fo.names| > 0
  }

  datatype Container = Container(
    id: string,
    name: string,
    serviceName: string,
    serviceType: string,
    labels: map<string, string>)

  /** The engine's matching rules and the regular expressions of the client side. */
  datatype Matching = Matching(
    name: (string, Container) -> bool,
    id: (string, Container) -> bool,
    labels: (seq<string>, Container) -> bool,
    valid: string -> bool,
    regex: (string, string) -> bool)

  /** What the engine returns for the options. */
  ghost predicate EngineSelects(m: Matching, fo: FilterOptions, c: Container) {
    && (fo.names == [] || exists n | n in fo.names :: m.name(n, c))
    && (fo.ids == [] || exists i | i in fo.ids :: m.id(i, c))
    && (fo.labels == [] || m.labels(fo.labels, c))
  }

  /** What the client keeps of it: the right type, no excluded name and no excluded label. */
  predicate ClientKeeps(m: Matching, fo: FilterOptions, c: Container) {
    && (fo.types == [] || c.serviceType in fo.types)
    && (forall p | p in fo.excludeNames && m.valid(p) :: !m.regex(p, c.name) && !m.regex(p, c.serviceName))
    && (forall l | l in fo.excludeWithLabel :: l !in c.labels)
  }

  ghost predicate Selects(m: Matching, fo: FilterOptions, c: Container) {
    EngineSelects(m, fo, c) && ClientKeeps(m, fo, c)
  }

  /** The containers, in the engine's order, that the client keeps. */
  function Kept(m: Matching, fo: FilterOptions, containers: seq<Container>): seq<Container> {
    if containers == [] then []
    else
      var rest := Kept(m, fo, containers[..|containers| - 1]);
      var c := containers[|containers| - 1];
      if ClientKeeps(m, fo, c) then rest + [c] else rest
  }

  /** Where the containers that the client keeps stand among those that the engine returned. */
  function Places(m: Matching, fo: FilterOptions, containers: seq<Container>): seq<nat> {
    if containers == [] then []
    else
      var n := |containers| - 1;
      var rest := Places(m, fo, containers[..n]);
      if ClientKeeps(m, fo, containers[n]) then rest + [n] else rest
  }

  /** The kept containers are in the engine's order, each as often as it was returned. */
  lemma {:induction false} KeptInOrder(m: Matching, fo: FilterOptions, containers: seq<Container>)
    ensures var at, kept := Places(m, fo, containers), Kept(m, fo, containers);
      && |at| == |kept| && (forall i, j | 0 <= i < j < |at| :: at[i] < at[j])
      && (forall i | 0 <= i < |at| :: at[i] < |containers| && kept[i] == containers[at[i]])
      && forall k | 0 <= k < |containers| :: k in at <==>
           && (fo.types == [] || containers[k].serviceType in fo.types)
           && (forall p | p in fo.excludeNames ::
                 m.valid(p) ==> !m.regex(p, containers[k].name) && !m.regex(p, containers[k].serviceName))
           && (forall l | l in fo.excludeWithLabel :: l !in containers[k].labels)
  {
    if containers != [] {
      var n := |containers| - 1;
      var p := containers[..n];
      KeptInOrder(m, fo, p);
      assert forall k | 0 <= k < n :: p[k] == containers[k];
    }
  }

  /** The client side of listing: `containers` is what the engine returned. */
  method List(m: Matching, fo: FilterOptions, containers: seq<Container>) returns (items: seq<Container>)
    requires forall c | c in containers :: EngineSelects(m, fo, c)
    ensures items == Kept(m, fo, containers)
    ensures forall c :: c in items <==> c in containers && Selects(m, fo, c)
    ensures forall c :: c in items <==>
      && c in containers && (fo.types == [] || c.serviceType in fo.types)
      && !(exists p | p in fo.excludeNames :: m.valid(p) && (m.regex(p, c.name) || m.regex(p, c.serviceName)))
      && !(exists l | l in fo.excludeWithLabel :: l in c.labels)
  {
    var patterns: seq<string> := [];
    for i := 0 to |fo.excludeNames|
      invariant forall p :: p in patterns <==> p in fo.excludeNames[..i] && m.valid(p)
    {
      if m.valid(fo.excludeNames[i]) {
        patterns := patterns + [fo.excludeNames[i]];
      }
    }
    assert fo.excludeNames[..|fo.excludeNames|] == fo.excludeNames;
    items := [];
    for i := 0 to |containers|
      invariant items == Kept(m, fo, containers[..i])
      invariant forall c :: c in items <==> c in containers[..i] && ClientKeeps(m, fo, c)
    {
      var c := containers[i];
      assert containers[..i + 1][..i] == containers[..i];
      if |fo.types| > 0 && c.serviceType !in fo.types {
        continue;
      }
      var ignored := false;
      for k := 0 to |patterns|
        invariant ignored <==>
          exists j | 0 <= j < k :: m.regex(patterns[j], c.name) || m.regex(patterns[j], c.serviceName)
      {
        if m.regex(patterns[k], c.name) || m.regex(patterns[k], c.serviceName) {
          ignored := true;
          break;
        }
      }
      if ignored {
        continue;
      }
      var hasLabel := false;
      for k := 0 to |fo.excludeWithLabel|
        invariant hasLabel <==> exists j | 0 <= j < k :: fo.excludeWithLabel[j] in c.labels
      {
        hasLabel := fo.excludeWithLabel[k] in c.labels;
        if hasLabel {
          break;
        }
      }
      if hasLabel {
        continue;
      }
      items := items + [c];
    }
    assert containers[..|containers|] == containers;
  }
}
