/** Group names: what makes two of them the same, and which ones may be created
    (server/models/groups.go). */
module GroupNames {
  import opened Options
  import opened Text

  const MAX_GROUP_NAME_LENGTH: nat := 64

  datatype NameError = Missing | TooLong | HasSlash | HasColon | Unprintable

  predicate IsPrint(c: char) { 32 <= c as int <= 126 }

  function ValidateGroupName(name: string): (e: Option<NameError>)
    ensures e == None <==>
            name != "" && |name| <= MAX_GROUP_NAME_LENGTH
            && forall c :: c in name ==> c != '/' && c != ':' && 32 <= c as int <= 126
  {
    if name == "" then Some(Missing)
    else if |name| > MAX_GROUP_NAME_LENGTH then Some(TooLong)
    else if '/' in name then Some(HasSlash)
    else if ':' in name then Some(HasColon)
    else if exists c :: c in name && !IsPrint(c) then Some(Unprintable)
    else None
  }

  /** The bucket key of a name. */
  function Key(name: string): string {
    Lower(Trim(name))
  }

  predicate SameGroupName(a: string, b: string) {
    EqualFold(a, b)
  }

  lemma SameNameSameKey(a: string, b: string)
    ensures SameGroupName(a, b) ==> Key(a) == Key(b)
    ensures Trimmed(a) && Trimmed(b) ==> (SameGroupName(a, b) <==> Key(a) == Key(b))
  {
    LowerTrim(a);
    LowerTrim(b);
    TrimTrims(a);
    TrimTrims(b);
  }

  /** Two trimmed names share a key exactly when they have the same letters, in whatever case. */
  lemma OneKeyExactly(a: string, b: string)
    requires Trimmed(a) && Trimmed(b)
    ensures Key(a) == Key(b) <==> SameLetters(a, b)
    ensures SameGroupName(a, b) <==> SameLetters(a, b)
  {
    TrimTrims(a);
    TrimTrims(b);
    LowerExact(a, b);
  }
}

/** The group store (server/storage/groups.go) and the part of the system store that touches it
    (server/storage/bbolt.go). A transaction is one method: it does all of its work or none. */
module GroupStore {
  import opened Options
  import opened Text
  import opened Models
  import opened GroupNames

  // ---------- canonical members ----------

  ghost predicate Canonical(members: seq<string>) {
    && StrictlyAscending(members)
    && forall m :: m in members ==> m != "" && Trim(m) == m
  }

  /** Who a list of names, however typed, puts in a group. */
  ghost function Named(members: seq<string>): set<string> {
    set m | m in members && Trim(m) != "" :: Trim(m)
  }

  method NormalizeMembers(members: seq<string>) returns (out: seq<string>)
    ensures Canonical(out) && Elements(out) == Named(members)
    ensures forall m :: m in out <==> m != "" && exists n :: n in members && Trim(n) == m
  {
    var seen: set<string> := {};
    var names: seq<string> := [];
    for n := 0 to |members|
      invariant seen == Elements(names) == Named(members[..n])
      invariant Distinct(names)
      invariant forall m :: m in names ==> m != "" && Trim(m) == m
    {
      var m := Trim(members[n]);
      TrimTrims(members[n]);
      TrimTrims(m);
      assert members[..n + 1] == members[..n] + [members[n]];
      NamedAppend(members[..n], members[n]);
      if m == "" || m in seen {
        continue;
      }
      seen := seen + {m};
      names := names + [m];
    }
    assert members[..|members|] == members;
    SortDistinct(names);
    SortKeepsElements(names);
    out := Sort(names);
    forall m ensures m in out <==> m in Named(members) {
      assert m in Elements(out) <==> m in out;
    }
    forall m | m in out ensures m != "" && Trim(m) == m {
      assert m in Elements(names);
    }
  }

  lemma NamedAppend(members: seq<string>, m: string)
    ensures Named(members + [m]) == Named(members) + if Trim(m) == "" then {} else {Trim(m)}
  {
    assert forall x :: x in members + [m] <==> x in members || x == m;
    if Trim(m) != "" {
      assert m in members + [m];
    }
  }

  lemma CanonicalNames(members: seq<string>)
    requires forall m :: m in members ==> m != "" && Trim(m) == m
    ensures Named(members) == Elements(members)
  {
    forall m | m in members ensures m in Named(members) {
      assert Trim(m) == m;
    }
  }

  /** Normalizing a canonical list changes nothing. */
  lemma NormalizeCanonical(members: seq<string>, out: seq<string>)
    requires Canonical(members) && Canonical(out) && Elements(out) == Named(members)
    ensures out == members
  {
    CanonicalNames(members);
    AscendingUnique(out, members);
  }

  // ---------- the store ----------

  /** Every group is filed under the key of its own name, with its members in canonical form. */
  ghost predicate WellFormed(groups: map<string, Group>) {
    forall k :: k in groups ==> k != "" && Key(groups[k].name) == k && Canonical(groups[k].members)
  }

  datatype Outcome = Done | NotFound | AlreadyExists | Invalid

  /** The memberships after one host joins exactly the groups of `wanted`. */
  ghost predicate Rehomed(before: map<string, Group>, after: map<string, Group>, host: string, wanted: set<string>) {
    && after.Keys == before.Keys
    && forall k :: k in before ==>
         && after[k].name == before[k].name && after[k].derived == before[k].derived
         && Elements(after[k].members) ==
            if k in wanted then Elements(before[k].members) + {host} else Elements(before[k].members) - {host}
  }

  class Storage {
    var groups: map<string, Group>
    var systems: map<string, System>

    ghost predicate Valid()
      reads this
    {
      WellFormed(groups) && "" !in systems
    }

    constructor ()
      ensures Valid() && groups == map[] && systems == map[]
    {
      groups, systems := map[], map[];
    }

    function Find(name: string): (found: Option<Group>)
      reads this
      ensures found.Some? <==> Key(name) in groups
    {
      if Key(name) in groups then Some(groups[Key(name)]) else None
    }

    /** Files a group under the key of its name; the bucket takes no blank key. */
    method WriteGroup(group: Group) returns (ok: bool)
      requires Valid()
      modifies this`groups
      ensures Valid()
      ensures ok <==> Key(group.name) != ""
      ensures !ok ==> groups == old(groups)
      ensures ok ==>
        && Key(group.name) in groups
        && groups == old(groups)[Key(group.name) := groups[Key(group.name)]]
        && groups[Key(group.name)].name == group.name && groups[Key(group.name)].derived == group.derived
        && Elements(groups[Key(group.name)].members) == Named(group.members)
    {
      var members := NormalizeMembers(group.members);
      if Key(group.name) == "" {
        return false;
      }
      groups := groups[Key(group.name) := group.(members := members)];
      return true;
    }

    method SaveGroup(group: Group) returns (ok: bool)
      requires Valid()
      modifies this`groups
      ensures Valid()
      ensures ok <==> Key(group.name) != ""
      ensures !ok ==> groups == old(groups)
      ensures ok ==>
        && Key(group.name) in groups
        && groups == old(groups)[Key(group.name) := groups[Key(group.name)]]
        && groups[Key(group.name)].name == group.name && groups[Key(group.name)].derived == group.derived
        && Elements(groups[Key(group.name)].members) == Named(group.members)
    {
      ok := WriteGroup(group);
    }

    method DeleteGroup(name: string) returns (o: Outcome)
      requires Valid()
      modifies this`groups
      ensures Valid()
      ensures o == if Key(name) in old(groups) then Done else NotFound
      ensures groups == old(groups) - {Key(name)}
    {
      if Find(name) == None {
        return NotFound;
      }
      groups := groups - {Key(name)};
      return Done;
    }

    /** The group keeps its members, exactly, under its new name; no other group is touched and
        none is lost. A name already filed is a collision, unless it is this group's own name in
        another case. A failure changes nothing. */
    method RenameGroup(oldName: string, newName: string) returns (o: Outcome)
      requires Valid()
      modifies this`groups
      ensures Valid()
      ensures o == if Key(oldName) !in old(groups) then NotFound
                   else if !SameGroupName(oldName, newName) && Key(newName) in old(groups) then AlreadyExists
                   else if Key(newName) == "" then Invalid
                   else Done
      ensures o != Done ==> groups == old(groups)
      ensures o == Done ==>
        && |groups| == |old(groups)|
        && groups == (old(groups) - {Key(oldName)})[Key(newName) := old(groups)[Key(oldName)].(name := newName)]
    {
      if Find(oldName) == None {
        return NotFound;
      }
      if !SameGroupName(oldName, newName) {
        if Find(newName) != None {
          return AlreadyExists;
        }
      }
      var ok := MoveGroup(oldName, newName);
      return if ok then Done else Invalid;
    }

    /** Writes a group under its new name and deletes the old record, unless it is the same one. */
    method MoveGroup(oldName: string, newName: string) returns (ok: bool)
      requires Valid() && Key(oldName) in groups
      requires SameGroupName(oldName, newName) || Key(newName) !in groups
      modifies this`groups
      ensures Valid()
      ensures ok <==> Key(newName) != ""
      ensures !ok ==> groups == old(groups)
      ensures ok ==>
        && |groups| == |old(groups)|
        && groups == (old(groups) - {Key(oldName)})[Key(newName) := old(groups)[Key(oldName)].(name := newName)]
    {
      var group := groups[Key(oldName)].(name := newName);
      SameNameSameKey(oldName, newName);
      ok := Relabel(group);
      if ok {
        if !SameGroupName(oldName, newName) {
          groups := groups - {Key(oldName)};
        }
        Moved(old(groups), groups, Key(oldName), Key(newName), group);
      }
    }

    /** Writing a group whose members are canonical writes it as it is. */
    method Relabel(group: Group) returns (ok: bool)
      requires Valid() && Canonical(group.members)
      modifies this`groups
      ensures Valid()
      ensures ok <==> Key(group.name) != ""
      ensures groups == if ok then old(groups)[Key(group.name) := group] else old(groups)
    {
      ok := WriteGroup(group);
      if ok {
        NormalizeCanonical(group.members, groups[Key(group.name)].members);
      }
    }

    /** Walks every group once, and lists those the host has to join or leave. */
    method ChangedGroups(host: string, wanted: set<string>) returns (changed: seq<Group>)
      requires Valid()
      requires wanted != {} ==> host != "" && Trim(host) == host
      ensures forall i :: 0 <= i < |changed| ==> IsChange(groups, changed[i], host, wanted)
      ensures forall k :: k in groups ==> Settled(groups[k], host, k in wanted) || Listed(changed, 0, k)
    {
      changed := [];
      var todo := groups.Keys;
      while todo != {}
        invariant todo <= groups.Keys
        invariant forall i :: 0 <= i < |changed| ==> IsChange(groups, changed[i], host, wanted)
        invariant forall k :: k in groups && k !in todo ==>
                    Settled(groups[k], host, k in wanted) || Listed(changed, 0, k)
        decreases todo
      {
        var k :| k in todo;
        todo := todo - {k};
        ghost var before := changed;
        var change := ChangeFor(groups[k], host, k in wanted);
        if change.Some? {
          changed := changed + [change.value];
        }
        ListedGrows(before, changed);
        assert change.Some? ==> Key(changed[|before|].name) == k;
      }
    }

    /** What has to change in one group for the host to be in it, or out of it. */
    static method ChangeFor(group: Group, host: string, wanted: bool) returns (change: Option<Group>)
      requires Canonical(group.members) && (wanted ==> host != "" && Trim(host) == host)
      ensures change.None? ==> Settled(group, host, wanted)
      ensures change.Some? ==>
        && change.value == group.(members := change.value.members)
        && Named(change.value.members) == Home(Elements(group.members), host, wanted)
    {
      var member := host in group.members;
      CanonicalNames(group.members);
      if wanted && !member {
        NamedAppend(group.members, host);
        return Some(group.(members := group.members + [host]));
      }
      if !wanted && member {
        WithoutElements(group.members, host);
        CanonicalNames(Without(group.members, host));
        return Some(group.(members := Without(group.members, host)));
      }
      return None;
    }

    /** Makes the host a member of exactly the groups of `wanted`. */
    method WalkGroups(host: string, wanted: set<string>)
      requires Valid()
      requires wanted != {} ==> host != "" && Trim(host) == host
      modifies this`groups
      ensures Valid()
      ensures Rehomed(old(groups), groups, host, wanted)
    {
      ghost var before := groups;
      var changed := ChangedGroups(host, wanted);
      var n: nat := 0;
      while n < |changed|
        invariant n <= |changed|
        invariant Valid() && groups.Keys == before.Keys
        invariant forall k :: k in before ==> Written(before, groups, changed, n, host, wanted, k)
      {
        ghost var current := groups;
        var ok := WriteGroup(changed[n]);
        WriteStep(before, current, groups, changed, n, host, wanted);
        n := n + 1;
      }
      AllWritten(before, groups, changed, host, wanted);
    }

    /** Replaces one host's memberships. It succeeds exactly when there is a host and every group
        named exists; then the host is in exactly the groups named, and nobody else moves. */
    method SetHostGroups(hostname: string, names: seq<string>) returns (o: Outcome)
      requires Valid()
      modifies this`groups
      ensures Valid()
      ensures o == if Trim(hostname) == "" then Invalid
                   else if forall n :: n in names ==> Key(n) in old(groups) then Done
                   else NotFound
      ensures o != Done ==> groups == old(groups)
      ensures o == Done ==> Rehomed(old(groups), groups, Trim(hostname), set n | n in names :: Key(n))
    {
      var host := Trim(hostname);
      TrimTrims(hostname);
      TrimTrims(host);
      if host == "" {
        return Invalid;
      }
      var wanted: set<string> := {};
      for i := 0 to |names|
        invariant forall n :: n in names[..i] ==> Key(n) in groups
        invariant wanted == set n | n in names[..i] :: Key(n)
      {
        var found := Find(names[i]);
        if found == None {
          return NotFound;
        }
        assert names[..i + 1] == names[..i] + [names[i]];
        wanted := wanted + {Key(found.value.name)};
        assert Key(found.value.name) == Key(names[i]);
      }
      assert names[..|names|] == names;
      WalkGroups(host, wanted);
      return Done;
    }

    method SaveSystem(hostname: string, system: System, now: int) returns (ok: bool)
      requires Valid()
      modifies this`systems
      ensures Valid()
      ensures ok <==> hostname != ""
      ensures systems == if ok then old(systems)[hostname := system.(lastSeen := At(ToSecond(now)))] else old(systems)
    {
      if hostname == "" {
        return false;
      }
      systems := systems[hostname := system.(lastSeen := At(ToSecond(now)))];
      return true;
    }

    /** Deleting a system takes its name out of every group and changes no other membership. */
    method DeleteSystem(hostname: string) returns (o: Outcome)
      requires Valid()
      modifies this
      ensures Valid()
      ensures o == if hostname in old(systems) then Done else NotFound
      ensures o != Done ==> groups == old(groups) && systems == old(systems)
      ensures o == Done ==> systems == old(systems) - {hostname} && Rehomed(old(groups), groups, hostname, {})
    {
      if hostname !in systems {
        return NotFound;
      }
      systems := systems - {hostname};
      WalkGroups(hostname, {});
      return Done;
    }
  }

  ghost function Home(members: set<string>, host: string, wanted: bool): set<string> {
    if wanted then members + {host} else members - {host}
  }

  ghost predicate Settled(group: Group, host: string, wanted: bool) {
    Elements(group.members) == Home(Elements(group.members), host, wanted)
  }

  ghost predicate IsChange(groups: map<string, Group>, change: Group, host: string, wanted: set<string>) {
    var k := Key(change.name);
    k in groups && change.name == groups[k].name && change.derived == groups[k].derived
    && Named(change.members) == Home(Elements(groups[k].members), host, k in wanted)
  }

  /** Some group from position `n` of the list on is filed under `k`. */
  ghost predicate Listed(changed: seq<Group>, n: nat, k: string) {
    exists j :: n <= j < |changed| && Key(changed[j].name) == k
  }

  /** While the list is written out up to `n`, a group is as it was and needs no change or still
      waits for its turn, or it is as it should be. */
  ghost predicate Written(before: map<string, Group>, now: map<string, Group>, changed: seq<Group>, n: nat,
                          host: string, wanted: set<string>, k: string)
    requires k in before && k in now
  {
    || (now[k] == before[k] && (Settled(before[k], host, k in wanted) || Listed(changed, n, k)))
    || (now[k].name == before[k].name && now[k].derived == before[k].derived
        && Elements(now[k].members) == Home(Elements(before[k].members), host, k in wanted))
  }

  lemma ListedGrows(before: seq<Group>, after: seq<Group>)
    requires before <= after
    ensures forall k :: Listed(before, 0, k) ==> Listed(after, 0, k)
  {
    forall k | Listed(before, 0, k) ensures Listed(after, 0, k) {
      var j :| 0 <= j < |before| && Key(before[j].name) == k;
      assert after[j] == before[j];
    }
  }

  lemma AllWritten(before: map<string, Group>, now: map<string, Group>, changed: seq<Group>, host: string,
                   wanted: set<string>)
    requires now.Keys == before.Keys
    requires forall k :: k in before ==> Written(before, now, changed, |changed|, host, wanted, k)
    ensures Rehomed(before, now, host, wanted)
  {
    forall k | k in before
      ensures now[k].name == before[k].name && now[k].derived == before[k].derived
      ensures Elements(now[k].members) == Home(Elements(before[k].members), host, k in wanted)
    {
      assert Written(before, now, changed, |changed|, host, wanted, k);
    }
  }

  lemma WriteStep(before: map<string, Group>, current: map<string, Group>, now: map<string, Group>,
                  changed: seq<Group>, n: nat, host: string, wanted: set<string>)
    requires n < |changed| && IsChange(before, changed[n], host, wanted)
    requires current.Keys == before.Keys
    requires forall k :: k in before ==> Written(before, current, changed, n, host, wanted, k)
    requires var k := Key(changed[n].name);
      k in now && now == current[k := now[k]]
      && now[k].name == changed[n].name && now[k].derived == changed[n].derived
      && Elements(now[k].members) == Named(changed[n].members)
    ensures now.Keys == before.Keys
    ensures forall k :: k in before ==> Written(before, now, changed, n + 1, host, wanted, k)
  {
    var kn := Key(changed[n].name);
    forall k | k in before ensures Written(before, now, changed, n + 1, host, wanted, k) {
      if k != kn {
        assert now[k] == current[k];
        if Listed(changed, n, k) {
          var j :| n <= j < |changed| && Key(changed[j].name) == k;
          assert Listed(changed, n + 1, k);
        }
      }
    }
  }

  /** `slices.DeleteFunc` for one name. */
  function Without(members: seq<string>, host: string): seq<string> {
    if members == [] then []
    else if members[0] == host then Without(members[1..], host)
    else [members[0]] + Without(members[1..], host)
  }

  lemma {:induction false} WithoutElements(members: seq<string>, host: string)
    ensures Elements(Without(members, host)) == Elements(members) - {host}
    ensures forall m :: m in Without(members, host) ==> m in members
  {
    if members != [] {
      var rest := Without(members[1..], host);
      WithoutElements(members[1..], host);
      assert members == [members[0]] + members[1..];
      assert Elements(members) == Elements(members[1..]) + {members[0]};
      assert Elements([members[0]] + rest) == Elements(rest) + {members[0]};
    }
  }

  lemma Moved(before: map<string, Group>, after: map<string, Group>, from: string, to: string, group: Group)
    requires from in before && (to !in before || to == from)
    requires after == if to == from then before[to := group] else before[to := group] - {from}
    ensures after == (before - {from})[to := group]
    ensures |after| == |before|
  {
    assert after.Keys == before.Keys - {from} + {to};
    assert |after.Keys| == |before.Keys|;
  }
}
