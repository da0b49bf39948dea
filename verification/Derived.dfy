/** Groups computed from what hosts report (server/models/derived.go). */
module DerivedGroups {
  import opened Options
  import opened Sorting
  import opened Text
  import opened Models

  const PREFIX_OS := "os:"
  const PREFIX_PKG := "pkg:"
  const PREFIX_ARCH := "arch:"
  const PREFIX_STATE := "state:"

  const NEEDS_REBOOT := PREFIX_STATE + "needs-reboot"
  const HAS_UPDATES := PREFIX_STATE + "has-updates"

  /** Whether a name belongs to the derived namespace. */
  predicate IsDerivedName(name: string) {
    var lower := Lower(Trim(name));
    PREFIX_OS <= lower || PREFIX_PKG <= lower || PREFIX_ARCH <= lower || PREFIX_STATE <= lower
  }

  // ---------- the distribution table ----------

  /** A family name: not empty, and already in lower case. */
  predicate IsSlug(s: string) {
    s != "" && forall i :: 0 <= i < |s| ==> !('A' <= s[i] <= 'Z')
  }

  type Slug = s: string | IsSlug(s) witness "a"

  /** Text to look for in the distribution's own name, and the families it means. */
  datatype Rule = Rule(needles: seq<string>, family: Slug, pkg: Slug)

  const MAC_RULES: seq<Rule> := [
    Rule(["darwin", "macos", "mac os"], "macos", "brew")
  ]

  /** Pop!_OS and Mint come before Ubuntu, and Ubuntu before Debian: each is derived from the next. */
  const DEB_RULES: seq<Rule> := [
    Rule(["pop!_os", "pop_os", "pop-os", "pop os"], "pop-os", "deb"),
    Rule(["linux mint", "linuxmint"], "mint", "deb"),
    Rule(["raspbian", "raspberry pi os"], "raspbian", "deb"),
    Rule(["kali"], "kali", "deb"),
    Rule(["devuan"], "devuan", "deb"),
    Rule(["ubuntu"], "ubuntu", "deb"),
    Rule(["debian"], "debian", "deb")
  ]

  const RPM_RULES: seq<Rule> := [
    Rule(["rocky"], "rocky", "rpm"),
    Rule(["almalinux", "alma linux"], "alma", "rpm"),
    Rule(["centos"], "centos", "rpm"),
    Rule(["oracle linux"], "oracle", "rpm"),
    Rule(["amazon linux"], "amazon", "rpm"),
    Rule(["scientific linux"], "scientific", "rpm"),
    Rule(["red hat", "redhat", "rhel"], "rhel", "rpm"),
    Rule(["fedora"], "fedora", "rpm"),
    Rule(["opensuse", "suse"], "suse", "rpm")
  ]

  const OTHER_RULES: seq<Rule> := [
    Rule(["nixos"], "nixos", "nix"),
    Rule(["manjaro"], "manjaro", "pacman"),
    Rule(["endeavouros"], "endeavouros", "pacman"),
    Rule(["arch linux", "archlinux"], "arch", "pacman"),
    Rule(["gentoo"], "gentoo", "portage"),
    Rule(["alpine"], "alpine", "apk"),
    Rule(["void linux"], "void", "xbps")
  ]

  function Rules(): seq<Rule> {
    MAC_RULES + DEB_RULES + RPM_RULES + OTHER_RULES
  }

  predicate AnyNeedle(lower: string, needles: seq<string>) {
    exists n :: n in needles && Contains(lower, n)
  }

  /** Rule `i` has a needle in the text, and no rule before it has. */
  ghost predicate FirstAt(lower: string, rules: seq<Rule>, i: nat) {
    && i < |rules| && AnyNeedle(lower, rules[i].needles)
    && forall j :: 0 <= j < i ==> !AnyNeedle(lower, rules[j].needles)
  }

  /** The first rule with a needle in the text. */
  function FirstRule(lower: string, rules: seq<Rule>): (r: Option<Rule>)
    ensures r.Some? ==> r.value in rules && AnyNeedle(lower, r.value.needles)
    ensures r.None? ==> forall rule :: rule in rules ==> !AnyNeedle(lower, rule.needles)
  {
    if rules == [] then None
    else if AnyNeedle(lower, rules[0].needles) then Some(rules[0])
    else FirstRule(lower, rules[1..])
  }

  function OSFamily(os: string): string {
    var r := FirstRule(Lower(os), Rules());
    if r.Some? then r.value.family else ""
  }

  function PackageFamily(os: string): string {
    var r := FirstRule(Lower(os), Rules());
    if r.Some? then r.value.pkg else ""
  }

  lemma {:induction false} FirstRuleIsFirst(lower: string, rules: seq<Rule>, i: nat)
    requires FirstAt(lower, rules, i)
    ensures FirstRule(lower, rules) == Some(rules[i])
  {
    if i > 0 {
      assert !AnyNeedle(lower, rules[0].needles);
      FirstRuleIsFirst(lower, rules[1..], i - 1);
    }
  }

  /** Both families are those of the first rule that has a needle in the text, in any case of it; where
      no rule has one there is no family. */
  lemma FamiliesOfFirst(os: string, i: nat)
    ensures FirstAt(Lower(os), Rules(), i) ==> OSFamily(os) == Rules()[i].family && PackageFamily(os) == Rules()[i].pkg
    ensures (forall rule :: rule in Rules() ==> !AnyNeedle(Lower(os), rule.needles)) ==>
              OSFamily(os) == "" && PackageFamily(os) == ""
  {
    if FirstAt(Lower(os), Rules(), i) {
      FirstRuleIsFirst(Lower(os), Rules(), i);
    }
  }

  lemma LowerConcat(s: string, t: string)
    ensures Lower(s + t) == Lower(s) + Lower(t)
  {}

  /** A host is in an os: group exactly when it is in a pkg: group, and the slugs are lower case. */
  lemma FamiliesAgree(os: string)
    ensures OSFamily(os) == "" <==> PackageFamily(os) == ""
    ensures Lower(OSFamily(os)) == OSFamily(os) && Lower(PackageFamily(os)) == PackageFamily(os)
  {
    var r := FirstRule(Lower(os), Rules());
    if r.Some? {
      SlugFixed(r.value.family);
      SlugFixed(r.value.pkg);
    }
  }

  lemma SlugFixed(s: Slug)
    ensures Lower(s) == s
  {}

  // ---------- which groups a host's facts put it in ----------

  predicate InGroup(s: System, name: string) {
    || (OSFamily(s.os) != "" && name == PREFIX_OS + OSFamily(s.os))
    || (PackageFamily(s.os) != "" && name == PREFIX_PKG + PackageFamily(s.os))
    || (Trim(s.architecture) != "" && name == PREFIX_ARCH + Lower(Trim(s.architecture)))
    || (s.rebootRequired && name == NEEDS_REBOOT)
    || (s.updatesAvailable && name == HAS_UPDATES)
  }

  /** The hosts in a group, in report order, one for each matching system with a name. */
  function HostsIn(systems: seq<System>, name: string): seq<string> {
    if systems == [] then []
    else
      var init, s := HostsIn(systems[..|systems| - 1], name), systems[|systems| - 1];
      if Trim(s.hostname) != "" && InGroup(s, name) then init + [Trim(s.hostname)] else init
  }

  lemma {:induction false} TrimRightKeeps(p: string, rest: string)
    requires p != [] && !IsSpace(p[|p| - 1])
    ensures p <= TrimRight(p + rest)
  {
    if rest != [] {
      assert (p + rest)[..|p + rest| - 1] == p + rest[..|rest| - 1];
      TrimRightKeeps(p, rest[..|rest| - 1]);
    } else {
      assert p + rest == p;
    }
  }

  lemma NamespaceName(prefix: string, rest: string)
    requires prefix in {PREFIX_OS, PREFIX_PKG, PREFIX_ARCH, PREFIX_STATE}
    ensures IsDerivedName(prefix + rest) && Lower(prefix + rest) == prefix + Lower(rest)
  {
    var name := prefix + rest;
    assert name[0] == prefix[0] && TrimLeft(name) == name;
    TrimRightKeeps(prefix, rest);
    assert Trim(name) == prefix + Trim(name)[|prefix|..];
    assert Lower(prefix) == prefix;
    LowerConcat(prefix, rest);
    LowerConcat(prefix, Trim(name)[|prefix|..]);
  }

  /** A host's groups are all in the derived namespace, with names in lower case. */
  lemma InGroupNames(s: System, name: string)
    requires InGroup(s, name)
    ensures IsDerivedName(name) && Lower(name) == name
  {
    if OSFamily(s.os) != "" && name == PREFIX_OS + OSFamily(s.os) {
      FamiliesAgree(s.os);
      NamespaceName(PREFIX_OS, OSFamily(s.os));
    } else if PackageFamily(s.os) != "" && name == PREFIX_PKG + PackageFamily(s.os) {
      FamiliesAgree(s.os);
      NamespaceName(PREFIX_PKG, PackageFamily(s.os));
    } else if name == PREFIX_ARCH + Lower(Trim(s.architecture)) {
      LowerIdempotent(Trim(s.architecture));
      NamespaceName(PREFIX_ARCH, Lower(Trim(s.architecture)));
    } else {
      StateNames();
    }
  }

  lemma StateNames()
    ensures IsDerivedName(NEEDS_REBOOT) && Lower(NEEDS_REBOOT) == NEEDS_REBOOT
    ensures IsDerivedName(HAS_UPDATES) && Lower(HAS_UPDATES) == HAS_UPDATES
  {
    NamespaceName(PREFIX_STATE, "needs-reboot");
    NamespaceName(PREFIX_STATE, "has-updates");
    SlugFixed("needs-reboot");
    SlugFixed("has-updates");
  }

  // ---------- deriving them ----------

  function Listed(members: map<string, seq<string>>, name: string): seq<string> {
    if name in members then members[name] else []
  }

  /** `now` is `start` with the host added once under each name of `added`. */
  ghost predicate Tallied(start: map<string, seq<string>>, now: map<string, seq<string>>,
                          added: set<string>, host: string) {
    && (forall n :: n in now ==> now[n] != [])
    && (forall n :: Listed(now, n) == Listed(start, n) + if n in added then [host] else [])
  }

  /** Adds the host under `name` when the fact behind it holds. */
  method AddIf(fact: bool, members: map<string, seq<string>>, name: string, host: string,
               ghost start: map<string, seq<string>>, ghost added: set<string>)
    returns (now: map<string, seq<string>>)
    requires Tallied(start, members, added, host) && name !in added
    ensures Tallied(start, now, added + Only(fact, name), host)
  {
    now := members;
    if fact {
      now := members[name := Listed(members, name) + [host]];
      forall n ensures Listed(now, n) == Listed(start, n) + if n in added + {name} then [host] else [] {
        assert Listed(members, n) == Listed(start, n) + if n in added then [host] else [];
        assert n != name ==> Listed(now, n) == Listed(members, n);
      }
    }
  }

  ghost function Only(fact: bool, name: string): set<string> {
    if fact then {name} else {}
  }

  ghost function NamesFor(s: System): (names: set<string>)
    ensures forall n :: n in names <==> InGroup(s, n)
  {
    Only(OSFamily(s.os) != "", PREFIX_OS + OSFamily(s.os))
    + Only(PackageFamily(s.os) != "", PREFIX_PKG + PackageFamily(s.os))
    + Only(Trim(s.architecture) != "", PREFIX_ARCH + Lower(Trim(s.architecture)))
    + Only(s.rebootRequired, NEEDS_REBOOT)
    + Only(s.updatesAvailable, HAS_UPDATES)
  }

  /** Files one host under every group its facts put it in. */
  method AddFacts(start: map<string, seq<string>>, s: System, host: string)
    returns (members: map<string, seq<string>>)
    requires forall n :: n in start ==> start[n] != []
    ensures Tallied(start, members, NamesFor(s), host)
  {
    var n1, n2 := PREFIX_OS + OSFamily(s.os), PREFIX_PKG + PackageFamily(s.os);
    var n3 := PREFIX_ARCH + Lower(Trim(s.architecture));
    assert n1[0] == 'o' && n2[0] == 'p' && n3[0] == 'a' && NEEDS_REBOOT[0] == HAS_UPDATES[0] == 's';
    assert NEEDS_REBOOT[6] != HAS_UPDATES[6];
    members := AddEach(start, host, OSFamily(s.os) != "", n1, PackageFamily(s.os) != "", n2,
                       Trim(s.architecture) != "", n3, s.rebootRequired, NEEDS_REBOOT, s.updatesAvailable, HAS_UPDATES);
  }

  method AddEach(start: map<string, seq<string>>, host: string, f1: bool, n1: string, f2: bool, n2: string,
                 f3: bool, n3: string, f4: bool, n4: string, f5: bool, n5: string)
    returns (members: map<string, seq<string>>)
    requires forall n :: n in start ==> start[n] != []
    requires n1 != n2 && n3 !in {n1, n2} && n4 !in {n1, n2, n3} && n5 !in {n1, n2, n3, n4}
    ensures Tallied(start, members, Only(f1, n1) + Only(f2, n2) + Only(f3, n3) + Only(f4, n4) + Only(f5, n5), host)
  {
    ghost var s1 := Only(f1, n1);
    ghost var s2 := s1 + Only(f2, n2);
    ghost var s3 := s2 + Only(f3, n3);
    ghost var s4 := s3 + Only(f4, n4);
    members := AddIf(f1, start, n1, host, start, {});
    members := AddIf(f2, members, n2, host, start, s1);
    members := AddIf(f3, members, n3, host, start, s2);
    members := AddIf(f4, members, n4, host, start, s3);
    members := AddIf(f5, members, n5, host, start, s4);
  }

  ghost predicate ListsHosts(members: map<string, seq<string>>, systems: seq<System>) {
    && (forall n :: n in members ==> members[n] != [])
    && (forall n :: Listed(members, n) == HostsIn(systems, n))
  }

  method CollectMembers(systems: seq<System>) returns (members: map<string, seq<string>>)
    ensures ListsHosts(members, systems)
  {
    members := map[];
    for i := 0 to |systems|
      invariant ListsHosts(members, systems[..i])
    {
      var host := Trim(systems[i].hostname);
      assert systems[..i + 1][..i] == systems[..i];
      ghost var before := members;
      if host != "" {
        members := AddFacts(members, systems[i], host);
      }
      forall n ensures Listed(members, n) == HostsIn(systems[..i + 1], n) {
        assert Listed(before, n) == HostsIn(systems[..i], n);
        assert host == "" ==> Listed(members, n) == Listed(before, n);
      }
    }
    assert systems[..|systems|] == systems;
  }

  predicate NameLess(a: Group, b: Group) {
    Less(a.name, b.name)
  }

  lemma NameWeakOrder()
    ensures WeakOrder(NameLess)
  {
    LessWeakOrder();
    forall a: Group, b: Group, c: Group | !NameLess(b, a) && !NameLess(c, b) ensures !NameLess(c, a) {
      assert !Less(b.name, a.name) && !Less(c.name, b.name);
    }
    forall a: Group, b: Group ensures NameLess(a, b) ==> !NameLess(b, a) {
      assert Less(a.name, b.name) ==> !Less(b.name, a.name);
    }
  }

  /** The group of one name, while some host matches it. */
  function GroupOf(systems: seq<System>, name: string): Group {
    Group(name, Sort(HostsIn(systems, name)), true)
  }

  /** Exactly the groups some host matches, each once, in strict name order. */
  ghost predicate Derives(systems: seq<System>, groups: seq<Group>) {
    && (forall i, j :: 0 <= i < j < |groups| ==> Less(groups[i].name, groups[j].name))
    && (forall g :: g in groups <==> HostsIn(systems, g.name) != [] && g == GroupOf(systems, g.name))
  }

  method DeriveGroups(systems: seq<System>) returns (groups: seq<Group>)
    ensures Derives(systems, groups)
  {
    var members := CollectMembers(systems);
    var unsorted := MakeGroups(members);
    assert forall n :: n in members <==> Listed(members, n) != [];
    forall g ensures g in unsorted <==> HostsIn(systems, g.name) != [] && g == GroupOf(systems, g.name) {
      assert Listed(members, g.name) == HostsIn(systems, g.name);
    }
    NameWeakOrder();
    groups := SortBy(NameLess, unsorted);
    SortedByName(unsorted, groups);
  }

  method MakeGroups(members: map<string, seq<string>>) returns (groups: seq<Group>)
    ensures forall g :: g in groups <==> g.name in members && g == Group(g.name, Sort(members[g.name]), true)
    ensures forall i, j :: 0 <= i < j < |groups| ==> groups[i].name != groups[j].name
  {
    groups := [];
    var todo := members.Keys;
    while todo != {}
      invariant todo <= members.Keys
      invariant Made(members, todo, groups)
      decreases todo
    {
      var name :| name in todo;
      MadeOne(members, todo, groups, name);
      todo := todo - {name};
      groups := groups + [Group(name, Sort(members[name]), true)];
    }
  }

  /** One group, and only one, for each name but those still to do. */
  ghost predicate Made(members: map<string, seq<string>>, todo: set<string>, groups: seq<Group>) {
    && (forall g :: g in groups <==>
          g.name in members && g.name !in todo && g == Group(g.name, Sort(members[g.name]), true))
    && (forall i, j :: 0 <= i < j < |groups| ==> groups[i].name != groups[j].name)
  }

  lemma MadeOne(members: map<string, seq<string>>, todo: set<string>, groups: seq<Group>, name: string)
    requires Made(members, todo, groups) && name in todo && name in members
    ensures Made(members, todo - {name}, groups + [Group(name, Sort(members[name]), true)])
  {
    assert forall i :: 0 <= i < |groups| ==> groups[i] in groups;
  }

  lemma SortedByName(unsorted: seq<Group>, groups: seq<Group>)
    requires AscendingBy(NameLess, groups) && multiset(groups) == multiset(unsorted)
    requires forall i, j :: 0 <= i < j < |unsorted| ==> unsorted[i].name != unsorted[j].name
    ensures forall g :: g in groups <==> g in unsorted
    ensures forall i, j :: 0 <= i < j < |groups| ==> Less(groups[i].name, groups[j].name)
  {
    SameElements(groups, unsorted);
    assert Distinct(unsorted);
    DistinctCounts(unsorted);
    DistinctCounts(groups);
    forall i, j | 0 <= i < j < |groups| ensures Less(groups[i].name, groups[j].name) {
      assert !NameLess(groups[j], groups[i]);
      LessTrichotomy(groups[i].name, groups[j].name);
      assert groups[i] in unsorted && groups[j] in unsorted;
      var a :| 0 <= a < |unsorted| && unsorted[a] == groups[i];
      var b :| 0 <= b < |unsorted| && unsorted[b] == groups[j];
      assert a != b;
    }
  }

  /** The lookup ignores case and surrounding space, and agrees with the full list. */
  method FindDerivedGroup(systems: seq<System>, name: string) returns (found: Option<Group>)
    ensures var n := Lower(Trim(name));
      found == if HostsIn(systems, n) == [] then None else Some(GroupOf(systems, n))
  {
    var groups := DeriveGroups(systems);
    DerivedNamesLower(systems, groups);
    found := FirstNamed(groups, Trim(name));
    assert HostsIn(systems, Lower(Trim(name))) != [] ==> GroupOf(systems, Lower(Trim(name))) in groups;
  }

  method FirstNamed(groups: seq<Group>, wanted: string) returns (found: Option<Group>)
    requires forall i :: 0 <= i < |groups| ==> Lower(groups[i].name) == groups[i].name
    ensures found.Some? ==> found.value in groups && found.value.name == Lower(wanted)
    ensures found.None? ==> forall g :: g in groups ==> g.name != Lower(wanted)
  {
    for i := 0 to |groups|
      invariant forall j :: 0 <= j < i ==> groups[j].name != Lower(wanted)
    {
      if EqualFold(groups[i].name, wanted) {
        return Some(groups[i]);
      }
    }
    return None;
  }

  lemma DerivedNamesLower(systems: seq<System>, groups: seq<Group>)
    requires Derives(systems, groups)
    ensures forall i :: 0 <= i < |groups| ==> Lower(groups[i].name) == groups[i].name
  {
    forall i | 0 <= i < |groups| ensures Lower(groups[i].name) == groups[i].name {
      assert groups[i] in groups;
      SomeMatch(systems, groups[i].name);
    }
  }

  /** A host is listed only where its facts put it. */
  lemma {:induction false} SomeMatch(systems: seq<System>, name: string)
    ensures HostsIn(systems, name) != [] ==> IsDerivedName(name) && Lower(name) == name
    ensures forall h :: h in HostsIn(systems, name) <==>
              exists s :: s in systems && InGroup(s, name) && Trim(s.hostname) == h && h != ""
  {
    if systems != [] {
      var init, s := systems[..|systems| - 1], systems[|systems| - 1];
      SomeMatch(init, name);
      assert systems == init + [s];
      if InGroup(s, name) {
        InGroupNames(s, name);
      }
    }
  }

  // ---------- what the groups say, fact by fact ----------

  /** A name is reserved exactly when it is, in some case and with whatever space around it, one of four
      prefixes and a rest. */
  lemma DerivedNameExact(name: string)
    ensures IsDerivedName(name) <==>
            exists p, rest :: p in {"os:", "pkg:", "arch:", "state:"} && SameLetters(Trim(name), p + rest)
  {
    var t := Trim(name);
    LowerExact(t, t);
    if IsDerivedName(name) {
      var p :| p in {"os:", "pkg:", "arch:", "state:"} && p <= Lower(t);
      var rest := Lower(t)[|p|..];
      assert p + rest == Lower(t);
      assert SameLetters(t, p + rest);
    }
    forall p, rest | p in {"os:", "pkg:", "arch:", "state:"} && SameLetters(t, p + rest) ensures p <= Lower(t) {
      LowerExact(t, p + rest);
      LowerConcat(p, rest);
      PrefixLower(p);
    }
  }

  lemma PrefixLower(p: string)
    requires p in {"os:", "pkg:", "arch:", "state:"}
    ensures Lower(p) == p
  {
    forall i | 0 <= i < |p| ensures Lower(p)[i] == p[i] {}
  }

  /** The facts, once each, that put a host in a group of some name. */
  predicate ByFacts(name: string, os: string, pkg: string, arch: string, reboot: bool, updates: bool) {
    || (os != "" && name == PREFIX_OS + os)
    || (pkg != "" && name == PREFIX_PKG + pkg)
    || (arch != "" && name == PREFIX_ARCH + arch)
    || (reboot && name == NEEDS_REBOOT)
    || (updates && name == HAS_UPDATES)
  }

  lemma KindsApart(what: string, os: string, pkg: string, arch: string, reboot: bool, updates: bool)
    ensures ByFacts("os:" + what, os, pkg, arch, reboot, updates) <==> what != "" && os == what
    ensures ByFacts("pkg:" + what, os, pkg, arch, reboot, updates) <==> what != "" && pkg == what
    ensures ByFacts("arch:" + what, os, pkg, arch, reboot, updates) <==> what != "" && arch == what
  {
    SamePrefix("os:", what, os);
    SamePrefix("pkg:", what, pkg);
    SamePrefix("arch:", what, arch);
    assert ("os:" + what)[0] == (PREFIX_OS + os)[0] == 'o';
    assert ("pkg:" + what)[0] == (PREFIX_PKG + pkg)[0] == 'p';
    assert ("arch:" + what)[0] == (PREFIX_ARCH + arch)[0] == 'a';
    assert NEEDS_REBOOT[0] == HAS_UPDATES[0] == 's';
  }

  lemma StatesApart(os: string, pkg: string, arch: string, reboot: bool, updates: bool)
    ensures ByFacts("state:needs-reboot", os, pkg, arch, reboot, updates) <==> reboot
    ensures ByFacts("state:has-updates", os, pkg, arch, reboot, updates) <==> updates
  {
    assert (PREFIX_OS + os)[0] == 'o' && (PREFIX_PKG + pkg)[0] == 'p' && (PREFIX_ARCH + arch)[0] == 'a';
    assert "state:needs-reboot"[0] == "state:has-updates"[0] == 's';
    assert "state:needs-reboot"[6] == 'n' && "state:has-updates"[6] == 'h';
    assert NEEDS_REBOOT == "state:needs-reboot" && HAS_UPDATES == "state:has-updates";
  }

  lemma InGroupByFacts(s: System, name: string)
    ensures InGroup(s, name) <==> ByFacts(name, OSFamily(s.os), PackageFamily(s.os), Lower(Trim(s.architecture)),
                                          s.rebootRequired, s.updatesAvailable)
  {
    assert |Lower(Trim(s.architecture))| == |Trim(s.architecture)|;
  }

  /** Which hosts a group of each kind holds. */
  lemma MembersByFact(s: System, what: string)
    ensures InGroup(s, "os:" + what) <==> what != "" && OSFamily(s.os) == what
    ensures InGroup(s, "pkg:" + what) <==> what != "" && PackageFamily(s.os) == what
    ensures InGroup(s, "arch:" + what) <==> what != "" && Lower(Trim(s.architecture)) == what
    ensures InGroup(s, "state:needs-reboot") <==> s.rebootRequired
    ensures InGroup(s, "state:has-updates") <==> s.updatesAvailable
  {
    InGroupByFacts(s, "os:" + what);
    InGroupByFacts(s, "pkg:" + what);
    InGroupByFacts(s, "arch:" + what);
    InGroupByFacts(s, "state:needs-reboot");
    InGroupByFacts(s, "state:has-updates");
    var os, pkg, arch := OSFamily(s.os), PackageFamily(s.os), Lower(Trim(s.architecture));
    KindsApart(what, os, pkg, arch, s.rebootRequired, s.updatesAvailable);
    StatesApart(os, pkg, arch, s.rebootRequired, s.updatesAvailable);
  }

  lemma SamePrefix(p: string, a: string, b: string)
    ensures p + a == p + b <==> a == b
  {
    assert (p + a)[|p|..] == a && (p + b)[|p|..] == b;
  }

  /** A derived group is marked so, and holds in order exactly the named hosts whose facts put them in
      it. */
  lemma GroupHolds(systems: seq<System>, groups: seq<Group>, g: Group, h: string)
    requires Derives(systems, groups) && g in groups
    ensures g.derived && g.members != [] && AscendingBy(Less, g.members)
    ensures h in g.members <==> h != "" && exists s :: s in systems && InGroup(s, g.name) && Trim(s.hostname) == h
  {
    SomeMatch(systems, g.name);
    SortKeepsElements(HostsIn(systems, g.name));
    assert h in Elements(g.members) <==> h in Elements(HostsIn(systems, g.name));
  }
}
