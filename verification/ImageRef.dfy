/** Comparing image references: docker.io names may be written in short or in full. */
module ImageRef {
  import opened Strings

  const HOST := "docker.io"
  const HUB: string := HOST + ['/']
  const OFFICIAL := "library"
  const LIBRARY: string := HUB + (OFFICIAL + ['/'])
  const LOCALHOST := "localhost"

  function Count(s: string, c: char): nat {
    if s == [] then 0 else (if s[0] == c then 1 else 0) + Count(s[1..], c)
  }

  /** The full name of a docker.io image without a namespace, and whether the reference was changed. */
  function ResolveDockerIOImage(ref: string): (string, bool) {
    if !(HUB <= ref) then (ref, false)
    else if LIBRARY <= ref || Count(ref, '/') >= 2 then (ref, false)
    else (LIBRARY + ref[|HUB|..], true)
  }

  function NormalizeImageRef(ref: string): string {
    ResolveDockerIOImage(ref).0
  }

  /** The part of a reference before its digest and before the first colon. */
  function NamePart(ref: string): string {
    Before(Before(ref, '@'), ':')
  }

  function FirstComponent(ref: string): string {
    Before(NamePart(ref), '/')
  }

  /** The first component is taken for a registry. */
  predicate NamesRegistry(ref: string) {
    '.' in FirstComponent(ref) || ':' in FirstComponent(ref) || FirstComponent(ref) == LOCALHOST
  }

  function ExpandForComparison(ref: string): string {
    if ResolveDockerIOImage(ref).1 then ResolveDockerIOImage(ref).0
    else if NamesRegistry(ref) then ref
    else if '/' !in NamePart(ref) then LIBRARY + ref
    else HUB + ref
  }

  predicate ImageRefsEqual(a: string, b: string) {
    ExpandForComparison(a) == ExpandForComparison(b)
  }

  // ---------- docker.io references ----------

  lemma {:induction false} CountAppend(a: string, b: string, c: char)
    ensures Count(a + b, c) == Count(a, c) + Count(b, c)
  {
    if a == [] {
      assert a + b == b;
    } else {
      assert (a + b)[1..] == a[1..] + b;
      CountAppend(a[1..], b, c);
    }
  }

  lemma {:induction false} CountIn(s: string, c: char)
    ensures Count(s, c) > 0 <==> c in s
  {
    if s != [] {
      CountIn(s[1..], c);
      assert s == [s[0]] + s[1..];
    }
  }

  lemma HostParts()
    ensures '/' !in HOST && '@' !in HOST && ':' !in HOST && '.' in HOST
  {
    assert HOST[6] == '.';
  }

  lemma {:induction false} BeforeAppend(a: string, b: string, c: char)
    requires c !in a
    ensures Before(a + b, c) == a + Before(b, c)
  {
    if a == [] {
      assert a + b == b;
    } else {
      assert (a + b)[1..] == a[1..] + b;
      BeforeAppend(a[1..], b, c);
    }
  }

  /** A reference that starts with docker.io/ names its registry. */
  lemma HubNamesRegistry(rest: string)
    ensures NamesRegistry(HUB + rest) && NamePart(HUB + rest) == HUB + NamePart(rest)
  {
    HostParts();
    BeforeAppend(HUB, rest, '@');
    BeforeAppend(HUB, Before(rest, '@'), ':');
    BeforeIs(HOST, '/', NamePart(rest));
  }

  lemma LibraryHasSlash(rest: string)
    requires LIBRARY <= HUB + rest
    ensures '/' in rest
  {
    assert (HUB + rest)[|LIBRARY| - 1] == LIBRARY[|LIBRARY| - 1] == '/';
    assert rest[|OFFICIAL|] == '/';
  }

  lemma HubSlashes(rest: string)
    ensures Count(HUB + rest, '/') >= 2 <==> '/' in rest
  {
    HostParts();
    CountIn(HOST, '/');
    CountAppend(HOST, ['/'], '/');
    assert Count(['/'], '/') == 1 + Count(['/'][1..], '/');
    CountAppend(HUB, rest, '/');
    CountIn(rest, '/');
  }

  /** docker.io/ is completed exactly when a single part follows it. */
  lemma ResolvedIff(rest: string)
    ensures ResolveDockerIOImage(HUB + rest) == if '/' in rest then (HUB + rest, false) else (LIBRARY + rest, true)
  {
    HubSlashes(rest);
    assert (HUB + rest)[|HUB|..] == rest;
    if LIBRARY <= HUB + rest {
      LibraryHasSlash(rest);
    }
  }

  /** A docker.io reference keeps its namespace, or gets the official one. */
  lemma ExpandOfHub(rest: string)
    ensures ExpandForComparison(HUB + rest) == if '/' in rest then HUB + rest else LIBRARY + rest
  {
    ResolvedIff(rest);
    HubNamesRegistry(rest);
  }

  lemma LibraryIsHub(rest: string)
    ensures LIBRARY + rest == HUB + (OFFICIAL + ['/'] + rest) && '/' in OFFICIAL + ['/'] + rest
  {
  }

  lemma HubRest(ref: string)
    requires HUB <= ref
    ensures ref == HUB + ref[|HUB|..]
  {
  }

  // ---------- what the comparison keeps ----------

  /** A reference written in full stays as it is. */
  lemma ExpandOfLibrary(rest: string)
    ensures ExpandForComparison(LIBRARY + rest) == LIBRARY + rest
  {
    LibraryIsHub(rest);
    ExpandOfHub(OFFICIAL + ['/'] + rest);
  }

  lemma SlashInNamePart(ref: string)
    requires '/' in NamePart(ref)
    ensures '/' in ref
  {
  }

  /** Expanding twice is expanding once. */
  lemma ExpandIdempotent(ref: string)
    ensures ExpandForComparison(ExpandForComparison(ref)) == ExpandForComparison(ref)
  {
    if HUB <= ref {
      HubRest(ref);
      ExpandOfHub(ref[|HUB|..]);
      ExpandOfLibrary(ref[|HUB|..]);
    } else if !NamesRegistry(ref) {
      if '/' in NamePart(ref) {
        SlashInNamePart(ref);
        ExpandOfHub(ref);
      } else {
        ExpandOfLibrary(ref);
      }
    }
  }

  /** Normalising first makes no difference to the comparison. */
  lemma ExpandAbsorbsNormalize(ref: string)
    ensures ExpandForComparison(NormalizeImageRef(ref)) == ExpandForComparison(ref)
  {
    if HUB <= ref {
      HubRest(ref);
      ResolvedIff(ref[|HUB|..]);
      ExpandOfHub(ref[|HUB|..]);
      ExpandOfLibrary(ref[|HUB|..]);
    }
  }

  /** The text after the last slash: image name, tag and digest. */
  function FinalPart(s: string): string {
    if '/' in s then FinalPart(s[|Before(s, '/')| + 1..]) else s
  }

  lemma {:induction false} FinalPartAfter(p: string, rest: string)
    ensures FinalPart(p + ['/'] + rest) == FinalPart(rest)
    decreases |p|
  {
    var s := p + ['/'] + rest;
    assert s[|p|] == '/';
    var first := Before(s, '/');
    if '/' in p {
      var more := p[|Before(p, '/')| + 1..];
      assert p == Before(p, '/') + ['/'] + more;
      assert s == Before(p, '/') + ['/'] + (more + ['/'] + rest);
      BeforeIs(Before(p, '/'), '/', more + ['/'] + rest);
      assert s[|first| + 1..] == more + ['/'] + rest;
      FinalPartAfter(more, rest);
    } else {
      BeforeIs(p, '/', rest);
      assert s[|first| + 1..] == rest;
    }
  }

  lemma FinalPartOfHub(rest: string)
    ensures FinalPart(HUB + rest) == FinalPart(rest)
  {
    FinalPartAfter(HOST, rest);
  }

  lemma FinalPartOfLibrary(rest: string)
    ensures FinalPart(LIBRARY + rest) == FinalPart(rest)
  {
    LibraryIsHub(rest);
    FinalPartOfHub(OFFICIAL + ['/'] + rest);
    FinalPartAfter(OFFICIAL, rest);
  }

  /** Expanding never touches the text after the last slash. */
  lemma FinalPartKept(ref: string)
    ensures FinalPart(ExpandForComparison(ref)) == FinalPart(ref)
  {
    if HUB <= ref {
      var rest := ref[|HUB|..];
      HubRest(ref);
      ExpandOfHub(rest);
      FinalPartOfHub(rest);
      FinalPartOfLibrary(rest);
    } else {
      FinalPartOfHub(ref);
      FinalPartOfLibrary(ref);
    }
  }

  /** References that compare equal agree on final name, tag and digest. */
  lemma EqualRefsShareFinalPart(a: string, b: string)
    requires ImageRefsEqual(a, b)
    ensures FinalPart(a) == FinalPart(b)
  {
    FinalPartKept(a);
    FinalPartKept(b);
  }

  // ---------- which short forms are recognised ----------

  lemma HostOfHub(ref: string)
    requires HUB <= ref
    ensures '/' in ref && Before(ref, '/') == HOST
  {
    HostParts();
    HubRest(ref);
    BeforeIs(HOST, '/', ref[|HUB|..]);
    assert ref[|HOST|] == HUB[|HOST|];
  }

  lemma Longer(ref: string)
    ensures LIBRARY + ref != ref && HUB + ref != ref
  {
  }

  lemma NotHub(ref: string)
    requires '/' !in ref
    ensures !(HUB <= ref) && FirstComponent(ref) == NamePart(ref) && '/' !in NamePart(ref)
  {
    if HUB <= ref {
      HostOfHub(ref);
    }
  }

  /**
   A single name compares equal to its docker.io form exactly when it is not taken for a registry: a name with a dot
   before its tag, such as my.app:1.0, is.
   */
  lemma SingleNameIff(name: string)
    requires '/' !in name
    ensures ImageRefsEqual(HUB + name, LIBRARY + name)
    ensures ImageRefsEqual(name, LIBRARY + name) <==> '.' !in NamePart(name) && NamePart(name) != LOCALHOST
  {
    ExpandOfHub(name);
    ExpandOfLibrary(name);
    NotHub(name);
    Longer(name);
  }

  lemma NamePartOfHost(host: string, rest: string)
    requires '@' !in host && ':' !in host
    ensures NamePart(host + [':'] + rest) == host
  {
    BeforeAppend(host + [':'], rest, '@');
    BeforeIs(host, ':', Before(rest, '@'));
  }

  /**
   A reference that starts with host:port is kept as it is only if the host itself has a dot or is localhost: the
   port is cut off before the first component is looked at, so the colon never tells.
   */
  lemma HostWithPortIff(host: string, rest: string)
    requires '/' !in host && '@' !in host && ':' !in host
    ensures ExpandForComparison(host + [':'] + rest) == host + [':'] + rest <==> '.' in host || host == LOCALHOST
  {
    NamePartOfHost(host, rest);
    PortIsNoHub(host, rest);
    Longer(host + [':'] + rest);
  }

  lemma PortIsNoHub(host: string, rest: string)
    requires '/' !in host
    ensures !(HUB <= host + [':'] + rest)
  {
    var ref := host + [':'] + rest;
    HostParts();
    BeforeAppend(host + [':'], rest, '/');
    assert Before(ref, '/')[|host|] == ':';
    if HUB <= ref {
      HostOfHub(ref);
    }
  }

  /** An image in a namespace compares equal to its docker.io form unless the namespace is taken for a registry. */
  lemma NamespacedIff(space: string, image: string)
    requires '/' !in space && '@' !in space && ':' !in space
    ensures var ref := space + ['/'] + image;
      ImageRefsEqual(ref, HUB + ref) <==> '.' !in space && space != LOCALHOST
  {
    var ref := space + ['/'] + image;
    NamePartOfNamespace(space, image);
    assert ref[|space|] == '/';
    ExpandOfHub(ref);
    if HUB <= ref {
      HostOfHub(ref);
      HostParts();
      BeforeIs(space, '/', image);
      ExpandOfHub(image);
      assert |LIBRARY + image| < |HUB + ref|;
    }
    Longer(ref);
  }

  lemma NamePartOfNamespace(space: string, image: string)
    requires '/' !in space && '@' !in space && ':' !in space
    ensures var ref := space + ['/'] + image;
      '/' in NamePart(ref) && FirstComponent(ref) == space
  {
    BeforeAppend(space + ['/'], image, '@');
    BeforeAppend(space + ['/'], Before(image, '@'), ':');
    BeforeIs(space, '/', NamePart(image));
    assert (space + ['/'] + NamePart(image))[|space|] == '/';
  }

  // ---------- when two references compare equal ----------

  /** The reference starts with what may be a namespace or an image of docker.io, and not with a registry. */
  predicate Unqualified(ref: string) {
    '.' !in FirstComponent(ref) && FirstComponent(ref) != LOCALHOST
  }

  function Official(name: string): string {
    OFFICIAL + ['/'] + name
  }

  /**
   The ways of writing a docker.io image: in full, without the host, and for an official one without its namespace,
   with the host or alone.
   */
  predicate Spells(ref: string, image: string) {
    || (ref == HUB + image && '/' in image)
    || (ref == image && Unqualified(ref) && '/' in NamePart(ref))
    || (HUB <= ref && image == Official(ref[|HUB|..]) && '/' !in ref[|HUB|..])
    || (image == Official(ref) && Unqualified(ref) && '/' !in NamePart(ref))
  }

  lemma FirstComponentHasNoColon(ref: string)
    ensures ':' !in FirstComponent(ref)
  {
  }

  lemma OfficialIsLibrary(name: string)
    ensures HUB + Official(name) == LIBRARY + name && '/' in Official(name)
  {
    LibraryIsHub(name);
  }

  lemma HubInjective(a: string, b: string)
    ensures HUB + a == HUB + b <==> a == b
  {
    assert (HUB + a)[|HUB|..] == a && (HUB + b)[|HUB|..] == b;
  }

  /** A reference with the host expands to the image it writes in full, or to the official one. */
  lemma HubExpandedIff(rest: string, image: string)
    ensures ExpandForComparison(HUB + rest) == HUB + image <==> Spells(HUB + rest, image)
  {
    ExpandOfHub(rest);
    HubNamesRegistry(rest);
    FirstComponentHasNoColon(HUB + rest);
    OfficialIsLibrary(rest);
    HubInjective(rest, image);
    HubInjective(Official(rest), image);
    assert (HUB + rest)[|HUB|..] == rest;
  }

  /** A reference expands to a docker.io image exactly when it is one of the ways of writing it. */
  lemma ExpandedIff(ref: string, image: string)
    ensures ExpandForComparison(ref) == HUB + image <==> Spells(ref, image)
  {
    if HUB <= ref {
      HubRest(ref);
      HubExpandedIff(ref[|HUB|..], image);
    } else {
      FirstComponentHasNoColon(ref);
      OfficialIsLibrary(ref);
      HubInjective(ref, image);
      HubInjective(Official(ref), image);
    }
  }

  lemma KeptUnlessHub(ref: string)
    ensures HUB <= ExpandForComparison(ref) || ExpandForComparison(ref) == ref
  {
  }

  lemma EqualAreSpelled(a: string, b: string)
    requires ImageRefsEqual(a, b)
    ensures a == b || exists image :: Spells(a, image) && Spells(b, image)
  {
    var full := ExpandForComparison(a);
    KeptUnlessHub(a);
    KeptUnlessHub(b);
    if HUB <= full {
      var image := full[|HUB|..];
      HubRest(full);
      ExpandedIff(a, image);
      ExpandedIff(b, image);
      assert Spells(a, image) && Spells(b, image);
    }
  }

  lemma SpelledAreEqual(a: string, b: string, image: string)
    requires Spells(a, image) && Spells(b, image)
    ensures ImageRefsEqual(a, b)
  {
    ExpandedIff(a, image);
    ExpandedIff(b, image);
  }

  /**
   Two references compare equal exactly when they are the same text or two ways of writing one docker.io image; so
   a reference that is none is equal to itself alone.
   */
  lemma EqualIff(a: string, b: string)
    ensures ImageRefsEqual(a, b) <==> a == b || exists image :: Spells(a, image) && Spells(b, image)
  {
    if ImageRefsEqual(a, b) {
      EqualAreSpelled(a, b);
    } else if exists image :: Spells(a, image) && Spells(b, image) {
      var image :| Spells(a, image) && Spells(b, image);
      SpelledAreEqual(a, b, image);
    }
  }

  // ---------- in full ----------

  /** A plain name with a tag, such as httpd:2.4, is an official image. */
  lemma OfficialInFull(name: string, tag: string)
    requires '/' !in name && '@' !in name && ':' !in name && '.' !in name && name != "localhost"
    ensures ExpandForComparison(name + ":" + tag) == "docker.io/library/" + name + ":" + tag
  {
    var ref := name + ":" + tag;
    NamePartOfHost(name, tag);
    PortIsNoHub(name, tag);
    assert ref == name + [':'] + tag;
    ShortInFull(ref);
    InWords();
  }

  lemma ShortInFull(ref: string)
    requires !(HUB <= ref) && '/' !in NamePart(ref) && '.' !in NamePart(ref) && NamePart(ref) != LOCALHOST
    ensures ExpandForComparison(ref) == LIBRARY + ref
  {
  }

  /** An image in a namespace, such as myuser/app:1.0, is one of docker.io, unless the namespace is a registry. */
  lemma NamespacedInFull(space: string, image: string)
    requires '/' !in space && '@' !in space && ':' !in space
    ensures var ref := space + "/" + image;
      ExpandForComparison(ref) ==
        if space == "docker.io" && '/' !in image then "docker.io/library/" + image
        else if '.' in space || space == "localhost" then ref
        else "docker.io/" + ref
  {
    var ref := space + "/" + image;
    InWords();
    NamePartOfNamespace(space, image);
    if space == HOST {
      assert ref == HUB + image;
      ExpandOfHub(image);
    } else if HUB <= ref {
      HostOfHub(ref);
      BeforeIs(space, '/', image);
    }
  }

  lemma InWords()
    ensures HUB == "docker.io/" && LIBRARY == "docker.io/library/"
  {
  }
}
