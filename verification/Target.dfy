/** Topic identities of devices and services: the strings by which the reconciliation recognises a service. */
module Target {
  import opened Optional
  import opened Strings

  datatype Target = Target(rootPrefix: string, topicID: string, cloudIdentity: string, name: string)

  const SERVICE := "service"
  const MAIN_DEVICE := "device/main//"

  function NewTarget(rootPrefix: string, topicID: string): Target {
    Target(if rootPrefix == "" then "te" else rootPrefix, topicID, "", "")
  }

  /** The device part of a topic identifier: its first two segments. */
  function DevicePart(topicID: string): string
    requires '/' in topicID
  {
    SplitParts(topicID, '/');
    Join(Split(topicID, '/')[0..2], ['/'])
  }

  function ServiceTopic(topicID: string, name: string): string
    requires '/' in topicID
  {
    Glue(Glue(DevicePart(topicID), '/', SERVICE), '/', name)
  }

  function Service(t: Target, name: string): Target
    requires '/' in t.topicID
  {
    NewTarget(t.rootPrefix, ServiceTopic(t.topicID, name)).(cloudIdentity := t.cloudIdentity, name := name)
  }

  function GetTopic(t: Target, subpath: seq<string>): string {
    if |subpath| == 0 then Glue(t.rootPrefix, '/', t.topicID)
    else Glue(Glue(t.rootPrefix, '/', t.topicID), '/', Join(subpath, ['/']))
  }

  function NewTargetFromTopic(topic: string): Option<Target> {
    var parts := Split(topic, '/');
    if |parts| >= 5 then Some(Target(parts[0], Join(parts[1..5], ['/']), "", ""))
    else None
  }

  function TrimRight(s: string, c: char): string {
    if s == [] || s[|s| - 1] != c then s else TrimRight(s[..|s| - 1], c)
  }

  function ReplaceAll(s: string, from: char, to: char): string {
    seq(|s|, i requires 0 <= i < |s| => if s[i] == from then to else s[i])
  }

  function ExternalID(t: Target): string {
    if t.topicID == MAIN_DEVICE then t.cloudIdentity
    else TrimRight(t.cloudIdentity + ":" + ReplaceAll(t.topicID, '/', ':'), ':')
  }

  // ---------- services of a device ----------

  lemma DeviceSegments(topicID: string)
    requires '/' in topicID
    ensures var parts := Split(topicID, '/');
      && |parts| >= 2 && '/' !in parts[0] && '/' !in parts[1]
      && DevicePart(topicID) == Glue(parts[0], '/', parts[1])
  {
    SplitParts(topicID, '/');
    var parts := Split(topicID, '/');
    assert parts[0] in parts && parts[1] in parts;
    assert parts[0..2] == [parts[0], parts[1]];
    JoinTwo(parts[0], parts[1], '/');
  }

  /** The segments of a service's topic, the name possibly having more than one. */
  lemma ServiceSegments(topicID: string, name: string)
    requires '/' in topicID
    ensures var parts := Split(topicID, '/');
      && |parts| >= 2
      && ServiceTopic(topicID, name) == Glue(parts[0], '/', Glue(parts[1], '/', Glue(SERVICE, '/', name)))
      && Split(ServiceTopic(topicID, name), '/') == [parts[0]] + ([parts[1]] + ([SERVICE] + Split(name, '/')))
  {
    DeviceSegments(topicID);
    var parts := Split(topicID, '/');
    GlueNested(parts[0], parts[1], SERVICE, name, '/');
    SplitThree(parts[0], parts[1], SERVICE, name, '/');
  }

  /** A service of a service is the service of its device, so the service and the device name services alike. */
  lemma ServiceOfService(topicID: string, own: string, name: string)
    requires '/' in topicID
    ensures '/' in ServiceTopic(topicID, own)
    ensures ServiceTopic(ServiceTopic(topicID, own), name) == ServiceTopic(topicID, name)
  {
    ServiceSegments(topicID, own);
    SplitParts(ServiceTopic(topicID, own), '/');
    assert Split(ServiceTopic(topicID, own), '/')[0..2] == Split(topicID, '/')[0..2];
  }

  /** Different names are different services. */
  lemma ServiceTopicInjective(topicID: string, a: string, b: string)
    requires '/' in topicID
    ensures ServiceTopic(topicID, a) == ServiceTopic(topicID, b) <==> a == b
  {
    var p := Glue(DevicePart(topicID), '/', SERVICE);
    assert Glue(p, '/', a)[|p| + 1..] == a && Glue(p, '/', b)[|p| + 1..] == b;
  }

  lemma FirstSegments(a: string, b: string, rest: string)
    requires '/' !in a && '/' !in b && (rest == "" || rest[0] == '/')
    ensures var parts := Split(Glue(a, '/', b + rest), '/');
      |parts| >= 2 && parts[0] == a && parts[1] == b
  {
    SplitGlue(a, '/', b + rest);
    SecondSegment(b, rest);
  }

  lemma SecondSegment(b: string, rest: string)
    requires '/' !in b && (rest == "" || rest[0] == '/')
    ensures Split(b + rest, '/')[0] == b
  {
    if rest == "" {
      assert b + rest == b;
    } else {
      assert b + rest == Glue(b, '/', rest[1..]);
      SplitGlue(b, '/', rest[1..]);
    }
  }

  /** In full: the first two segments of the device, and then service and the name. */
  lemma ServiceTopicIs(topicID: string, a: string, b: string, rest: string, name: string)
    requires topicID == a + "/" + b + rest && '/' !in a && '/' !in b && (rest == "" || rest[0] == '/')
    ensures '/' in topicID && ServiceTopic(topicID, name) == a + "/" + b + "/service/" + name
  {
    assert topicID == Glue(a, '/', b + rest) && topicID[|a|] == '/';
    FirstSegments(a, b, rest);
    DeviceSegments(topicID);
    assert Glue(Glue(Glue(a, '/', b), '/', SERVICE), '/', name) == a + "/" + b + "/service/" + name;
  }

  /** The services of the main device are found under device/main/service. */
  lemma MainDeviceService(name: string)
    ensures '/' in "device/main//" && ServiceTopic("device/main//", name) == "device/main/service/" + name
  {
    MainDeviceParts();
    ServiceTopicIs("device/main//", "device", "main", "//", name);
  }

  lemma MainDeviceParts()
    ensures "device" + "/" + "main" + "//" == "device/main//"
    ensures "device" + "/" + "main" + "/service/" == "device/main/service/"
    ensures '/' !in "device" && '/' !in "main"
  {
  }

  /** Where the health of a service is published. */
  lemma HealthTopic(root: string, topicID: string)
    ensures GetTopic(NewTarget(root, topicID), ["status", "health"])
      == (if root == "" then "te" else root) + "/" + topicID + "/status/health"
  {
    JoinTwo("status", "health", '/');
    assert Glue("status", '/', "health") == "status/health";
  }

  // ---------- identities in the cloud ----------

  lemma {:induction false} Trimmed(s: string, c: char)
    requires s == [] || s[|s| - 1] != c
    ensures TrimRight(s, c) == s
  {
  }

  lemma ReplacedGlue(a: string, b: string)
    ensures ReplaceAll(Glue(a, '/', b), '/', ':') == Glue(ReplaceAll(a, '/', ':'), ':', ReplaceAll(b, '/', ':'))
  {
  }

  lemma NothingReplaced(s: string)
    requires '/' !in s
    ensures ReplaceAll(s, '/', ':') == s
  {
  }

  lemma ReplacedTopic(topicID: string, a: string, b: string, name: string)
    requires topicID == a + "/" + b + "/service/" + name && '/' !in a && '/' !in b && '/' !in name
    ensures ReplaceAll(topicID, '/', ':') == a + ":" + b + ":service:" + name
  {
    var below := Glue(b, '/', Glue("service", '/', name));
    assert topicID == Glue(a, '/', below);
    ReplacedGlue(a, below);
    ReplacedGlue(b, Glue("service", '/', name));
    ReplacedGlue("service", name);
    NothingReplaced(a);
    NothingReplaced(b);
    NothingReplaced("service");
    NothingReplaced(name);
  }

  /** The identity of a service: that of the device, its segments and the name, with colons between them. */
  lemma ServiceIdentity(t: Target, a: string, b: string, name: string)
    requires t.topicID == a + "/" + b + "/service/" + name && '/' !in a && '/' !in b && '/' !in name
    requires name != "" && name[|name| - 1] != ':'
    ensures ExternalID(t) == t.cloudIdentity + ":" + a + ":" + b + ":service:" + name
  {
    ReplacedTopic(t.topicID, a, b, name);
    var id := t.cloudIdentity + ":" + a + ":" + b + ":service:" + name;
    assert id == t.cloudIdentity + ":" + (a + ":" + b + ":service:" + name);
    assert id[|id| - 1] == name[|name| - 1];
    assert t.topicID[|t.topicID| - 1] == name[|name| - 1] != '/';
    Trimmed(id, ':');
  }

  /** The identity of a device below another: no colons are left of the empty segments. */
  lemma ChildDeviceIdentity(t: Target, a: string, b: string)
    requires t.topicID == a + "/" + b + "//" != "device/main//" && '/' !in a && '/' !in b
    requires b != "" && b[|b| - 1] != ':'
    ensures ExternalID(t) == t.cloudIdentity + ":" + a + ":" + b
  {
    var below := Glue(b, '/', "/");
    assert t.topicID == Glue(a, '/', below);
    ReplacedGlue(a, below);
    ReplacedGlue(b, "/");
    NothingReplaced(a);
    NothingReplaced(b);
    var id := t.cloudIdentity + ":" + a + ":" + b;
    assert ReplaceAll("/", '/', ':') == ":";
    assert t.cloudIdentity + ":" + ReplaceAll(t.topicID, '/', ':') == id + "::";
    TrimTwo(id, ':');
    assert id + [':', ':'] == id + "::";
  }

  lemma TrimTwo(s: string, c: char)
    requires s != [] && s[|s| - 1] != c
    ensures TrimRight(s + [c, c], c) == s
  {
    assert (s + [c, c])[..|s| + 1] == s + [c] && (s + [c])[..|s|] == s;
    Trimmed(s, c);
    assert TrimRight(s + [c], c) == s;
  }

  lemma {:induction false} TrimKeeps(s: string, c: char, k: nat)
    requires k < |s| && s[k] != c
    ensures s[..k + 1] <= TrimRight(s, c)
  {
    if s[|s| - 1] == c {
      TrimKeeps(s[..|s| - 1], c, k);
      assert s[..|s| - 1][..k + 1] == s[..k + 1];
    }
  }

  /** A topic identifier other than that of the main device, and not of separators alone. */
  predicate Proper(topicID: string) {
    topicID != "device/main//" && exists k | 0 <= k < |topicID| :: topicID[k] != '/' && topicID[k] != ':'
  }

  /** The identity of a proper topic begins with that of the device and goes on. */
  lemma IdentityGoesOn(t: Target)
    requires Proper(t.topicID)
    ensures t.cloudIdentity + ":" <= ExternalID(t) && |ExternalID(t)| > |t.cloudIdentity| + 1
  {
    var k :| 0 <= k < |t.topicID| && t.topicID[k] != '/' && t.topicID[k] != ':';
    var full := t.cloudIdentity + ":" + ReplaceAll(t.topicID, '/', ':');
    var at := |t.cloudIdentity| + 1 + k;
    assert full[at] == t.topicID[k];
    TrimKeeps(full, ':', at);
    assert full[..at + 1][..|t.cloudIdentity| + 1] == t.cloudIdentity + ":";
  }

  // ---------- topics ----------

  /** A service is recovered from any of its topics exactly when neither the root nor its name contains a separator. */
  lemma TopicRoundTrip(t: Target, name: string, subpath: seq<string>)
    requires '/' in t.topicID && t.rootPrefix != ""
    ensures var s := Service(t, name);
      (NewTargetFromTopic(GetTopic(s, subpath)) == Some(s.(cloudIdentity := "", name := "")))
      <==> ('/' !in t.rootPrefix && '/' !in name)
  {
    var topic := GetTopic(Service(t, name), subpath);
    if '/' in t.rootPrefix {
      SplitParts(topic, '/');
      assert Split(topic, '/')[0] in Split(topic, '/');
    } else {
      Recovered(t, name, subpath);
      ServiceTopicInjective(t.topicID, Before(name, '/'), name);
    }
  }

  /** With a proper root, what is recovered is the service named by the first segment of the name. */
  lemma Recovered(t: Target, name: string, subpath: seq<string>)
    requires '/' in t.topicID && t.rootPrefix != "" && '/' !in t.rootPrefix
    ensures NewTargetFromTopic(GetTopic(Service(t, name), subpath))
         == Some(Target(t.rootPrefix, ServiceTopic(t.topicID, Before(name, '/')), "", ""))
  {
    var s := ServiceTopic(t.topicID, name);
    var rest := Below(s, subpath);
    GlueAssociative(t.rootPrefix, '/', s, Join(subpath, ['/']));
    assert GetTopic(Service(t, name), subpath) == Glue(t.rootPrefix, '/', rest);
    SplitGlue(t.rootPrefix, '/', rest);
    RestSegments(t.topicID, name, subpath);
    SecondToFifth(t.rootPrefix, Split(rest, '/'));
  }

  lemma SecondToFifth<T>(a: T, rest: seq<T>)
    requires |rest| >= 4
    ensures ([a] + rest)[1..5] == rest[0..4] && ([a] + rest)[0] == a
  {
  }

  lemma FirstFour<T>(a: T, b: T, c: T, rest: seq<T>)
    requires |rest| >= 1
    ensures ([a] + ([b] + ([c] + rest)))[0..4] == [a, b, c, rest[0]]
  {
  }

  /** A topic identifier or name with more segments below it. */
  function Below(s: string, subpath: seq<string>): string {
    if |subpath| == 0 then s else Glue(s, '/', Join(subpath, ['/']))
  }

  /** The segments after the root prefix: what the parser takes for the service's name ends at the first separator. */
  lemma RestSegments(topicID: string, name: string, subpath: seq<string>)
    requires '/' in topicID
    ensures var rest := Split(Below(ServiceTopic(topicID, name), subpath), '/');
      && |rest| >= 4
      && Join(rest[0..4], ['/']) == ServiceTopic(topicID, Before(name, '/'))
  {
    var parts := Split(topicID, '/');
    var last := Before(name, '/');
    BelowService(topicID, name, subpath);
    ServiceSegments(topicID, Below(name, subpath));
    ServiceSegments(topicID, last);
    FirstSegment(name, subpath);
    FirstFour(parts[0], parts[1], SERVICE, Split(Below(name, subpath), '/'));
    JoinFour(parts[0], parts[1], SERVICE, last, '/');
  }

  lemma BelowService(topicID: string, name: string, subpath: seq<string>)
    requires '/' in topicID
    ensures Below(ServiceTopic(topicID, name), subpath) == ServiceTopic(topicID, Below(name, subpath))
  {
    GlueAssociative(Glue(DevicePart(topicID), '/', SERVICE), '/', name, Join(subpath, ['/']));
  }

  lemma FirstSegment(name: string, subpath: seq<string>)
    ensures Split(Below(name, subpath), '/')[0] == Before(name, '/')
  {
    SplitHead(Below(name, subpath), '/');
    BeforeGlue(name, '/', Join(subpath, ['/']));
  }
}
