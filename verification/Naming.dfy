/** Under which name a container is known: in a listing, and in the events about it. */
module Naming {
  import opened Optional

  /** The fields of a listed container that make up its service name. */
  datatype Container = Container(name: string, projectName: string, serviceName: string, moduleName: string)

  datatype Item = Item(name: string, serviceType: string, status: string, container: Container)

  /** The name of a project's service. */
  function Qualified(project: string, service: string): string {
    project + ['@'] + service
  }

  function GetName(c: Container): string {
    if c.projectName == "" then c.name
    else Qualified(if c.moduleName != "" then c.moduleName else c.projectName, c.serviceName)
  }

  // ---------- the naming policy of an update ----------

  /** The item under the name that the policy gives it: without module names the project's own name counts. */
  function Policy(useModuleName: bool, item: Item): Item {
    if useModuleName || item.container.moduleName == "" then item
    else
      var c := item.container.(moduleName := "");
      item.(container := c, name := GetName(c))
  }

  function Policies(useModuleName: bool, items: seq<Item>): seq<Item> {
    seq(|items|, i requires 0 <= i < |items| => Policy(useModuleName, items[i]))
  }

  /** Renames the items in place. */
  method ApplyServiceNamePolicy(useModuleName: bool, items: array<Item>)
    modifies items
    ensures items[..] == Policies(useModuleName, old(items[..]))
  {
    if useModuleName {
      return;
    }
    for i := 0 to items.Length
      invariant forall k | 0 <= k < i :: items[k] == Policy(useModuleName, old(items[k]))
      invariant forall k | i <= k < items.Length :: items[k] == old(items[k])
    {
      if items[i].container.moduleName != "" {
        items[i] := items[i].(container := items[i].container.(moduleName := ""));
        items[i] := items[i].(name := GetName(items[i].container));
      }
    }
  }

  // ---------- listings and events ----------

  /** What the engine says about a container, alike in listings and events; an absent label is an empty string. */
  datatype Labels = Labels(name: string, project: string, service: string, workingDir: Option<string>)

  /** The container as it is listed; `modules` reads the module name stored in a directory. */
  function Listed(l: Labels, modules: string -> string): Container {
    Container(l.name, l.project, l.service, if l.workingDir.Some? then modules(l.workingDir.value) else "")
  }

  function ListedItem(l: Labels, modules: string -> string, serviceType: string, status: string): Item {
    Item(GetName(Listed(l, modules)), serviceType, status, Listed(l, modules))
  }

  /** The service an event is about. */
  function ServiceNameFromEvent(useModuleName: bool, l: Labels, modules: string -> string): string {
    if l.project == "" || l.service == "" then l.name
    else
      var project :=
        if useModuleName && l.workingDir.Some? && l.workingDir.value != "" && modules(l.workingDir.value) != "" then
          modules(l.workingDir.value)
        else l.project;
      Qualified(project, l.service)
  }

  /** The name before the separator of a project's service. */
  function ProjectPart(useModuleName: bool, l: Labels, modules: string -> string): string {
    if useModuleName && l.workingDir.Some? && modules(l.workingDir.value) != "" then modules(l.workingDir.value)
    else l.project
  }

  lemma PolicyName(useModuleName: bool, l: Labels, modules: string -> string, serviceType: string, status: string)
    ensures Policy(useModuleName, ListedItem(l, modules, serviceType, status)).name
      == if l.project == "" then l.name else Qualified(ProjectPart(useModuleName, l, modules), l.service)
  {
  }

  /**
   An event and an update know a container by the same name, whatever the policy, except for a project's container
   without a service label, and for one whose working directory is an empty string under which a module is stored.
   */
  lemma NamesAgreeIff(useModuleName: bool, l: Labels, modules: string -> string, serviceType: string, status: string)
    ensures var updated := Policy(useModuleName, ListedItem(l, modules, serviceType, status));
      updated.name == ServiceNameFromEvent(useModuleName, l, modules) <==>
        || l.project == ""
        || (l.service == "" && l.name == Qualified(ProjectPart(useModuleName, l, modules), ""))
        || (l.service != ""
            && !(useModuleName && l.workingDir == Some("") && modules("") != "" && modules("") != l.project))
  {
    PolicyName(useModuleName, l, modules, serviceType, status);
    QualifiedInjective(ProjectPart(useModuleName, l, modules), l.project, l.service);
  }

  /** A project's container c without a service label: its events are about c, its updates about p@. */
  lemma NoServiceLabelDisagrees(useModuleName: bool, modules: string -> string, serviceType: string, status: string)
    ensures var l := Labels("c", "p", "", None);
      && ServiceNameFromEvent(useModuleName, l, modules) == "c"
      && Policy(useModuleName, ListedItem(l, modules, serviceType, status)).name == "p@"
  {
    PolicyName(useModuleName, Labels("c", "p", "", None), modules, serviceType, status);
  }

  /** The name of a listed container: its own, or that of its module or project with the service behind an @. */
  lemma GetNameIs(c: Container)
    ensures GetName(c) ==
      if c.projectName == "" then c.name
      else (if c.moduleName != "" then c.moduleName else c.projectName) + "@" + c.serviceName
  {
  }

  /** Services have the same name exactly if project and service agree, if no project name holds the separator. */
  lemma QualifiedAgreeIff(p: string, s: string, q: string, t: string)
    requires '@' !in p && '@' !in q
    ensures Qualified(p, s) == Qualified(q, t) <==> p == q && s == t
  {
    if Qualified(p, s) == Qualified(q, t) {
      var k := Qualified(p, s);
      assert forall j | 0 <= j < |p| :: k[j] == p[j] && k[j] != '@';
      assert forall j | 0 <= j < |q| :: k[j] == q[j] && k[j] != '@';
      assert k[|p|] == '@' && k[|q|] == '@';
      assert k[..|p|] == p && k[..|q|] == q && k[|p| + 1..] == s && k[|q| + 1..] == t;
    }
  }

  lemma QualifiedInjective(a: string, b: string, service: string)
    ensures Qualified(a, service) == Qualified(b, service) <==> a == b
  {
    if Qualified(a, service) == Qualified(b, service) {
      assert Qualified(a, service)[..|a|] == a && Qualified(b, service)[..|b|] == b;
    }
  }
}
