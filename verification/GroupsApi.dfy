/** The routes that read and edit groups (server/api/groups.go), and the one that deletes a
    host. Each handler is one atomic step. */
module GroupsApi {
  import opened Options
  import opened Text
  import opened Models
  import opened GroupNames
  import opened GroupStore
  import opened DerivedGroups

  const OK := 200
  const CREATED := 201
  const BAD_REQUEST := 400
  const NOT_FOUND := 404
  const CONFLICT := 409

  /** A group the routes let into the store: a valid, trimmed name, and not derived. */
  ghost predicate ApiGroup(group: Group) {
    ValidateGroupName(group.name) == None && Trimmed(group.name) && !group.derived
  }

  ghost predicate ApiNames(groups: map<string, Group>) {
    forall k :: k in groups ==> ApiGroup(groups[k])
  }

  /** A name is taken exactly when some stored group has the same letters, in whatever case. */
  lemma TakenByLetters(groups: map<string, Group>, name: string)
    requires WellFormed(groups) && ApiNames(groups) && Trimmed(name)
    ensures Key(name) in groups <==> exists k :: k in groups && SameLetters(groups[k].name, name)
  {
    forall k | k in groups ensures k == Key(name) <==> SameLetters(groups[k].name, name) {
      OneKeyExactly(groups[k].name, name);
    }
  }

  lemma LowerKeepsColons(s: string)
    ensures ':' in Lower(s) <==> ':' in s
  {
    if ':' in s {
      var i :| 0 <= i < |s| && s[i] == ':';
      assert Lower(s)[i] == ':';
    }
  }

  lemma DerivedHasColon(name: string)
    requires IsDerivedName(name)
    ensures ':' in Key(name)
  {
    var prefix :| prefix in {PREFIX_OS, PREFIX_PKG, PREFIX_ARCH, PREFIX_STATE} && prefix <= Key(name);
    assert Key(name)[|prefix| - 1] == prefix[|prefix| - 1] == ':';
  }

  lemma StoredHasNone(groups: map<string, Group>, k: string)
    requires WellFormed(groups) && ApiNames(groups) && k in groups
    ensures ':' !in k
  {
    TrimTrims(groups[k].name);
    LowerKeepsColons(groups[k].name);
  }

  /** A name denotes a stored group or a derived one, never both: no stored group lies in the
      derived namespace, and no derived group lies outside it. */
  lemma ResolveUnambiguous(groups: map<string, Group>, systems: seq<System>, name: string)
    requires WellFormed(groups) && ApiNames(groups)
    ensures IsDerivedName(name) ==> Key(name) !in groups
    ensures !IsDerivedName(name) ==> HostsIn(systems, Key(name)) == []
  {
    if IsDerivedName(name) {
      DerivedHasColon(name);
    }
    if Key(name) in groups {
      StoredHasNone(groups, Key(name));
    }
    if HostsIn(systems, Key(name)) != [] {
      SomeMatch(systems, Key(name));
      KeyOfKey(name);
    }
  }

  lemma KeyOfKey(name: string)
    ensures Key(Key(name)) == Key(name)
    ensures IsDerivedName(Key(name)) <==> IsDerivedName(name)
  {
    TrimTrims(name);
    TrimTrims(Trim(name));
    LowerTrim(Trim(name));
    LowerIdempotent(Trim(name));
  }

  lemma SameNameAgain(groups: map<string, Group>, k: string)
    requires k in groups
    ensures (groups - {k})[k := groups[k].(name := groups[k].name)] == groups
  {}

  lemma KeyNotBlank(name: string)
    requires name != "" && Trimmed(name)
    ensures Key(name) != ""
  {
    TrimTrims(name);
    assert |Lower(name)| == |name|;
  }

  lemma RenamedNames(before: map<string, Group>, after: map<string, Group>, k: string, newName: string)
    requires ApiNames(before) && k in before
    requires ValidateGroupName(newName) == None && Trimmed(newName)
    requires after == (before - {k})[Key(newName) := before[k].(name := newName)]
    ensures ApiNames(after)
  {}

  /** A group written back as `copy` has it, but with the members given: whatever is filed under its
      key now, and nothing else, is replaced. */
  ghost predicate WrittenBack(before: map<string, Group>, after: map<string, Group>, copy: Group,
                              members: set<string>)
  {
    var k := Key(copy.name);
    && k in after && after == before[k := after[k]]
    && after[k].name == copy.name && after[k].derived == copy.derived
    && Elements(after[k].members) == members
  }

  ghost predicate IsMember(groups: map<string, Group>, k: string, host: string) {
    k in groups && host in groups[k].members
  }

  /** A route reads a group in one transaction and writes its copy back in another. When the copy
      goes back with `members`, what others made of the store in between survives exactly in the
      other groups and where it agrees with those members: host `x` is in or out of group `j` after
      as it was between. Even a deletion of group `k` is undone. */
  lemma EditsSurviveReplacement(read: map<string, Group>, between: map<string, Group>, after: map<string, Group>,
                                k: string, members: set<string>, j: string, x: string)
    requires WellFormed(read) && k in read
    requires WrittenBack(between, after, read[k], members)
    ensures k in after
    ensures IsMember(after, j, x) == IsMember(between, j, x) <==>
            j != k || (x in members <==> IsMember(between, k, x))
  {
    assert x in Elements(after[k].members) <==> x in after[k].members;
  }

  /** And when the copy goes back without `host`, an edit made in between survives if and only if it
      is one of another group or took out the same host. */
  lemma EditsSurviveRemoval(read: map<string, Group>, between: map<string, Group>, after: map<string, Group>,
                            k: string, host: string, j: string, x: string)
    requires WellFormed(read) && IsMember(read, k, host)
    requires WrittenBack(between, after, read[k], Elements(read[k].members) - {host})
    requires IsMember(read, j, x) != IsMember(between, j, x)
    ensures IsMember(after, j, x) == IsMember(between, j, x) <==> j != k || x == host
  {
    EditsSurviveReplacement(read, between, after, k, Elements(read[k].members) - {host}, j, x);
    assert x in Elements(read[k].members) <==> x in read[k].members;
  }

  /** Membership replaced where the request carries one, and nothing else. */
  ghost predicate MembersSet(before: map<string, Group>, after: map<string, Group>, k: string,
                             members: Option<seq<string>>)
    requires k in before
  {
    && k in after && after == before[k := before[k].(members := after[k].members)]
    && (members.None? ==> after == before)
    && (members.Some? ==> Elements(after[k].members) == Named(members.value))
  }

  class Api {
    const store: Storage

    ghost predicate Valid()
      reads this, store
    {
      store.Valid() && ApiNames(store.groups)
    }

    constructor (store: Storage)
      requires store.Valid() && ApiNames(store.groups)
      ensures Valid() && this.store == store
    {
      this.store := store;
    }

    method AllSystems() returns (systems: seq<System>)
      ensures forall s :: s in systems <==> s in store.systems.Values
    {
      systems := [];
      var todo := store.systems.Keys;
      while todo != {}
        invariant todo <= store.systems.Keys
        invariant forall s :: s in systems <==> exists h :: h in store.systems && h !in todo && store.systems[h] == s
        decreases todo
      {
        var h :| h in todo;
        todo := todo - {h};
        systems := systems + [store.systems[h]];
      }
    }

    /** Finds a group, stored or derived, by a name in any case. */
    method ResolveGroup(name: string) returns (group: Option<Group>, ghost systems: seq<System>)
      requires Valid()
      ensures forall s :: s in systems <==> s in store.systems.Values
      ensures !IsDerivedName(name) ==>
        group == if Key(name) in store.groups then Some(store.groups[Key(name)]) else None
      ensures IsDerivedName(name) ==>
        group == if HostsIn(systems, Key(name)) == [] then None else Some(GroupOf(systems, Key(name)))
    {
      var all := AllSystems();
      systems := all;
      if !IsDerivedName(name) {
        return store.Find(name), all;
      }
      group := FindDerivedGroup(all, name);
    }

    /** The second transaction of a route that looked a group up earlier: whatever the store holds by
        now, that copy of it goes in with new members. */
    method WriteBack(copy: Group, members: seq<string>)
      requires Valid() && ApiGroup(copy)
      modifies store`groups
      ensures Valid() && WrittenBack(old(store.groups), store.groups, copy, Named(members))
    {
      KeyNotBlank(copy.name);
      var ok := store.SaveGroup(copy.(members := members));
    }

    method CreateGroup(rawName: string, members: seq<string>) returns (status: int)
      requires Valid()
      modifies store`groups
      ensures Valid()
      ensures status == if ValidateGroupName(Trim(rawName)) != None then BAD_REQUEST
                        else if Key(rawName) in old(store.groups) then CONFLICT
                        else CREATED
      ensures ValidateGroupName(Trim(rawName)) == None ==>
        (status == CONFLICT <==>
           exists k :: k in old(store.groups) && SameLetters(old(store.groups)[k].name, Trim(rawName)))
      ensures status != CREATED ==> store.groups == old(store.groups)
      ensures status == CREATED ==>
        && Key(rawName) in store.groups
        && store.groups == old(store.groups)[Key(rawName) := store.groups[Key(rawName)]]
        && store.groups[Key(rawName)].name == Trim(rawName)
        && Elements(store.groups[Key(rawName)].members) == Named(members)
    {
      var name := Trim(rawName);
      TrimTrims(rawName);
      TrimTrims(name);
      TakenByLetters(store.groups, name);
      if ValidateGroupName(name) != None {
        return BAD_REQUEST;
      }
      if store.Find(name) != None {
        return CONFLICT;
      }
      WriteBack(Group(name, [], false), members);
      return CREATED;
    }

    /** Renames a group, replaces its membership, or both. The membership is saved before the new
        name is looked at, so a request that is refused for its name has already moved hosts:
        `base` is the store between the two halves. */
    method UpdateGroup(name: string, newName: Option<string>, members: Option<seq<string>>)
      returns (status: int, ghost base: map<string, Group>)
      requires Valid()
      modifies store`groups
      ensures Valid()
      ensures IsDerivedName(name) ==> status == CONFLICT && store.groups == old(store.groups)
      ensures !IsDerivedName(name) && Key(name) !in old(store.groups) ==>
        status == NOT_FOUND && store.groups == old(store.groups)
      ensures !IsDerivedName(name) && Key(name) in old(store.groups) ==>
        && MembersSet(old(store.groups), base, Key(name), members)
        && status == (if newName.None? then OK
                      else if ValidateGroupName(Trim(newName.value)) != None then BAD_REQUEST
                      else if Key(newName.value) != Key(name) && Key(newName.value) in old(store.groups) then CONFLICT
                      else OK)
        && store.groups
           == if status == OK && newName.Some?
              then (base - {Key(name)})[Key(newName.value) := base[Key(name)].(name := Trim(newName.value))]
              else base
      ensures !IsDerivedName(name) && Key(name) in old(store.groups) && status != OK ==>
        (store.groups == old(store.groups) <==>
           members.None? || Named(members.value) == Elements(old(store.groups)[Key(name)].members))
    {
      base := store.groups;
      if IsDerivedName(name) {
        return CONFLICT, base;
      }
      var found := store.Find(name);
      if found == None {
        return NOT_FOUND, base;
      }
      var group := found.value;
      ghost var before := store.groups;
      if members.Some? {
        WriteBack(group, members.value);
      }
      base := store.groups;
      RefusedUpdateKeepsMembers(before, base, Key(name), members);
      if newName.Some? {
        TrimTrims(newName.value);
        SameNameAgain(base, Key(name));
        status := Rename(group.name, Trim(newName.value));
        return status, base;
      }
      return OK, base;
    }

    /** The last transaction of an update, over whatever the store holds by then: the new name is
        validated, an unchanged one is no rename, and a rename takes the members along as they are
        now. */
    method Rename(oldName: string, newName: string) returns (status: int)
      requires Valid() && Trimmed(oldName) && Trimmed(newName)
      modifies store`groups
      ensures Valid()
      ensures status == if ValidateGroupName(newName) != None then BAD_REQUEST
                        else if newName == oldName then OK
                        else if Key(oldName) !in old(store.groups) then NOT_FOUND
                        else if Key(newName) != Key(oldName) && Key(newName) in old(store.groups) then CONFLICT
                        else OK
      ensures status != OK || newName == oldName ==> store.groups == old(store.groups)
      ensures status == OK && newName != oldName ==>
        store.groups
        == (old(store.groups) - {Key(oldName)})[Key(newName) := old(store.groups)[Key(oldName)].(name := newName)]
    {
      if ValidateGroupName(newName) != None {
        return BAD_REQUEST;
      }
      if newName == oldName {
        return OK;
      }
      SameNameSameKey(oldName, newName);
      ghost var before := store.groups;
      KeyNotBlank(newName);
      var o := store.RenameGroup(oldName, newName);
      if o == NotFound {
        return NOT_FOUND;
      }
      if o == AlreadyExists {
        return CONFLICT;
      }
      RenamedNames(before, store.groups, Key(oldName), newName);
      return OK;
    }

    method DeleteGroup(name: string) returns (status: int)
      requires Valid()
      modifies store`groups
      ensures Valid()
      ensures status == if IsDerivedName(name) then CONFLICT
                        else if Key(name) in old(store.groups) then OK else NOT_FOUND
      ensures store.groups == if status == OK then old(store.groups) - {Key(name)} else old(store.groups)
    {
      if IsDerivedName(name) {
        return CONFLICT;
      }
      var o := store.DeleteGroup(name);
      return if o == NotFound then NOT_FOUND else OK;
    }

    method RemoveGroupMember(name: string, rawHost: string) returns (status: int)
      requires Valid()
      modifies store`groups
      ensures Valid()
      ensures status == if IsDerivedName(name) then CONFLICT
                        else if Key(name) in old(store.groups) && Trim(rawHost) in old(store.groups)[Key(name)].members
                        then OK else NOT_FOUND
      ensures status != OK ==> store.groups == old(store.groups)
      ensures status == OK ==>
        && MembersSet(old(store.groups), store.groups, Key(name),
                      Some(Without(old(store.groups)[Key(name)].members, Trim(rawHost))))
        && Elements(store.groups[Key(name)].members)
           == Elements(old(store.groups)[Key(name)].members) - {Trim(rawHost)}
    {
      var host := Trim(rawHost);
      if IsDerivedName(name) {
        return CONFLICT;
      }
      var found := store.Find(name);
      if found == None || host !in found.value.members {
        return NOT_FOUND;
      }
      var rest := Without(found.value.members, host);
      WithoutElements(found.value.members, host);
      CanonicalNames(rest);
      WriteBack(found.value, rest);
      return OK;
    }

    /** Puts a host in exactly the groups listed; a derived name, or a group that does not exist,
        refuses the whole request. */
    method SetSystemGroups(rawHost: string, names: seq<string>) returns (status: int)
      requires Valid()
      modifies store`groups
      ensures Valid()
      ensures status == if Trim(rawHost) == "" then BAD_REQUEST
                        else if exists n :: n in names && IsDerivedName(n) then CONFLICT
                        else if forall n :: n in names ==> Key(n) in old(store.groups) then OK
                        else BAD_REQUEST
      ensures status != OK ==> store.groups == old(store.groups)
      ensures status == OK ==>
        Rehomed(old(store.groups), store.groups, Trim(rawHost), set n | n in names :: Key(n))
    {
      var host := Trim(rawHost);
      TrimTrims(rawHost);
      TrimTrims(host);
      if host == "" {
        return BAD_REQUEST;
      }
      for i := 0 to |names|
        invariant forall n :: n in names[..i] ==> !IsDerivedName(n)
      {
        if IsDerivedName(names[i]) {
          return CONFLICT;
        }
        assert names[..i + 1] == names[..i] + [names[i]];
      }
      assert names[..|names|] == names;
      var o := store.SetHostGroups(host, names);
      return if o == Done then OK else BAD_REQUEST;
    }

    /** Deletes a host's record, and with it every membership under that name (server/api/routes.go). */
    method DeleteSystem(rawHost: string) returns (status: int)
      requires Valid()
      modifies store
      ensures Valid()
      ensures status == if Trim(rawHost) == "" then BAD_REQUEST
                        else if Trim(rawHost) in old(store.systems) then OK else NOT_FOUND
      ensures status != OK ==> store.groups == old(store.groups) && store.systems == old(store.systems)
      ensures status == OK ==>
        && store.systems == old(store.systems) - {Trim(rawHost)}
        && Rehomed(old(store.groups), store.groups, Trim(rawHost), {})
      ensures status == OK ==> forall k :: k in store.groups ==> Trim(rawHost) !in store.groups[k].members
    {
      var host := Trim(rawHost);
      if host == "" {
        return BAD_REQUEST;
      }
      var o := store.DeleteSystem(host);
      if o == NotFound {
        return NOT_FOUND;
      }
      forall k | k in store.groups ensures host !in store.groups[k].members {
        assert host !in Elements(store.groups[k].members);
      }
      return OK;
    }
  }

  /** A refused rename in a request that also replaced the members is not without effect: the
      members have changed whenever the request named a different set of them. */
  lemma RefusedUpdateKeepsMembers(before: map<string, Group>, base: map<string, Group>, k: string,
                                  members: Option<seq<string>>)
    requires WellFormed(before) && WellFormed(base) && k in before && MembersSet(before, base, k, members)
    ensures base == before <==> members.None? || Named(members.value) == Elements(before[k].members)
  {
    if members.Some? && Named(members.value) == Elements(before[k].members) {
      AscendingUnique(base[k].members, before[k].members);
    }
  }

  /** A word in small letters is a name as it stands. */
  lemma PlainName(s: string)
    requires 0 < |s| <= MAX_GROUP_NAME_LENGTH && forall i :: 0 <= i < |s| ==> 'a' <= s[i] <= 'z'
    ensures Key(s) == s && Trim(s) == s && !IsDerivedName(s) && ValidateGroupName(s) == None
    ensures Named([s]) == {s}
  {
    TrimTrims(s);
    assert Lower(s) == s;
    assert ':' !in s;
    if IsDerivedName(s) {
      DerivedHasColon(s);
    }
    assert [] + [s] == [s] && Named([]) == {};
    NamedAppend([], s);
  }

  lemma SlashRefused()
    ensures ValidateGroupName(Trim("a/b")) != None
  {
    TrimTrims("a/b");
    assert "a/b"[1] == '/';
  }

  /** "web" once created, "Web" is refused. */
  method CapitalsConflict() returns (first: int, second: int)
    ensures first == CREATED && second == CONFLICT
  {
    PlainName("web");
    TrimTrims("Web");
    assert ValidateGroupName("Web") == None;
    assert SameLetters("web", "Web");
    var store := new Storage();
    var api := new Api(store);
    first := api.CreateGroup("web", ["alpha"]);
    assert store.groups["web"].name == "web";
    second := api.CreateGroup("Web", ["beta"]);
  }

  /** Such a request: the group "web" of host "alpha" is to be called "a/b" and to hold "beta". The
      name is refused, and the group now holds "beta". */
  method RefusedUpdateMovesHosts() returns (status: int, members: seq<string>)
    ensures status == BAD_REQUEST && Elements(members) == {"beta"}
  {
    PlainName("web");
    PlainName("beta");
    SlashRefused();
    var store := new Storage();
    var api := new Api(store);
    var created := api.CreateGroup("web", ["alpha"]);
    ghost var base;
    status, base := api.UpdateGroup("web", Some("a/b"), Some(["beta"]));
    members := store.groups["web"].members;
  }
}
