/**
  * Copying a group with everything below it, and collecting the groups below a group, against a server
  * that keeps the groups as a forest.
  */
module GroupForest {
  import opened Common
  import Sequences

  type Id = nat

  datatype Role = Role(id: string, name: string)
  datatype User = User(id: string, username: string)

  /** A group on the server; `details` stands for its description and attributes. */
  datatype Group = Group(
    name: string, details: string, members: set<User>, permissions: bool,
    realmRoles: set<Role>, clientRoles: set<(string, Role)>, children: seq<Id>)

  /** The shape of a finite group tree. */
  datatype Tree = Tree(id: Id, kids: seq<Tree>)

  function Roots(ts: seq<Tree>): (ids: seq<Id>)
    ensures |ids| == |ts| && forall i :: 0 <= i < |ids| ==> ids[i] == ts[i].id
  {
    seq(|ts|, i requires 0 <= i < |ts| => ts[i].id)
  }

  /** Every group of the tree, a group before those below it. */
  function Preorder(t: Tree): seq<Id> {
    [t.id] + PreorderAll(t.kids)
  }

  function PreorderAll(ts: seq<Tree>): seq<Id> {
    if ts == [] then [] else Preorder(ts[0]) + PreorderAll(ts[1..])
  }

  lemma {:induction false} PreorderSnoc(ts: seq<Tree>, t: Tree)
    ensures PreorderAll(ts + [t]) == PreorderAll(ts) + Preorder(t)
  {
    if ts == [] {
      assert ts + [t] == [t];
    } else {
      assert (ts + [t])[1..] == ts[1..] + [t];
      PreorderSnoc(ts[1..], t);
    }
  }

  function Range(lo: Id, hi: Id): (ids: seq<Id>)
    requires lo <= hi
  {
    seq(hi - lo, i requires 0 <= i => lo + i)
  }

  /** The groups of `t` are in the store with this shape, and have ids from `lo` to below `hi`. */
  ghost predicate Holds(store: map<Id, Group>, t: Tree, lo: Id, hi: Id) {
    && t.id in store && lo <= t.id < hi
    && store[t.id].children == Roots(t.kids)
    && forall i :: 0 <= i < |t.kids| ==> Holds(store, t.kids[i], lo, hi)
  }

  /** What the console copies: which kind of group it is, and whether fine-grained permissions are on. */
  datatype Settings = Settings(isOrgGroups: bool, fineGrained: bool, clients: set<string>)

  /** A group as it is copied: roles without a name, or of clients that are not listed, stay behind. */
  function CopyOf(settings: Settings, g: Group): Group {
    Group(g.name, g.details, g.members,
          !settings.isOrgGroups && settings.fineGrained && g.permissions,
          if settings.isOrgGroups then {} else set r | r in g.realmRoles && r.name != "",
          if settings.isOrgGroups then {}
          else set p | p in g.clientRoles && p.0 in settings.clients && p.1.id != "" && p.1.name != "",
          [])
  }

  /** `copy` in `after` has the shape of `t` in `before`, and the same contents as far as they are copied. */
  ghost predicate Mirrors(settings: Settings, after: map<Id, Group>, copy: Tree, before: map<Id, Group>, t: Tree, name: string)
    decreases t
  {
    && copy.id in after && t.id in before
    && after[copy.id] == CopyOf(settings, before[t.id]).(name := name, children := Roots(copy.kids))
    && |copy.kids| == |t.kids|
    && forall i :: 0 <= i < |t.kids| ==>
         t.kids[i].id in before && Mirrors(settings, after, copy.kids[i], before, t.kids[i], before[t.kids[i].id].name)
  }

  /** Groups with these ids have not changed. */
  ghost predicate SameFrom(a: map<Id, Group>, b: map<Id, Group>, lo: Id, hi: Id) {
    forall id :: lo <= id < hi && id in a ==> id in b && b[id] == a[id]
  }

  lemma {:induction false} HoldsStill(a: map<Id, Group>, b: map<Id, Group>, t: Tree, lo: Id, hi: Id)
    requires Holds(a, t, lo, hi) && SameFrom(a, b, lo, hi)
    ensures Holds(b, t, lo, hi)
    decreases t
  {
    forall i | 0 <= i < |t.kids|
      ensures Holds(b, t.kids[i], lo, hi)
    {
      HoldsStill(a, b, t.kids[i], lo, hi);
    }
  }

  lemma {:induction false} HoldsWider(a: map<Id, Group>, t: Tree, lo: Id, hi: Id, lo': Id, hi': Id)
    requires Holds(a, t, lo, hi) && lo' <= lo && hi <= hi'
    ensures Holds(a, t, lo', hi')
    decreases t
  {
    forall i | 0 <= i < |t.kids|
      ensures Holds(a, t.kids[i], lo', hi')
    {
      HoldsWider(a, t.kids[i], lo, hi, lo', hi');
    }
  }

  lemma {:induction false} MirrorsStill(settings: Settings, a: map<Id, Group>, b: map<Id, Group>, copy: Tree, lo: Id, hi: Id,
                                        before: map<Id, Group>, t: Tree, name: string)
    requires Holds(a, copy, lo, hi) && SameFrom(a, b, lo, hi) && Mirrors(settings, a, copy, before, t, name)
    ensures Mirrors(settings, b, copy, before, t, name)
    decreases t
  {
    forall i | 0 <= i < |t.kids|
      ensures t.kids[i].id in before && Mirrors(settings, b, copy.kids[i], before, t.kids[i], before[t.kids[i].id].name)
    {
      MirrorsStill(settings, a, b, copy.kids[i], lo, hi, before, t.kids[i], before[t.kids[i].id].name);
    }
  }

  method ToList<T>(s: set<T>) returns (list: seq<T>)
    ensures forall x :: x in list <==> x in s
  {
    list := [];
    var rest := s;
    while rest != {}
      invariant rest <= s && forall x :: x in list <==> x in s && x !in rest
      decreases rest
    {
      var x :| x in rest;
      list, rest := list + [x], rest - {x};
    }
  }

  /** A role to assign; a client's role names its client. */
  datatype Assignment = Assignment(role: Role, client: Option<string>)

  class GroupServer {
    var store: map<Id, Group>
    var nextId: Id
    var roots: seq<Id>
    const settings: Settings

    /** Ids below `nextId` have been given out; clients have ids that are not empty. */
    ghost predicate Valid()
      reads this
    {
      (forall id :: id in store ==> id < nextId) && "" !in settings.clients
    }

    method Create(name: string, details: string, parentId: Option<Id>) returns (created: Id)
      requires Valid() && (parentId.Some? ==> parentId.value in store)
      modifies this
      ensures Valid() && created == old(nextId) && nextId == created + 1
      ensures var g := Group(name, details, {}, false, {}, {}, []);
              store == if parentId.None? then old(store)[created := g]
                       else old(store)[parentId.value := old(store[parentId.value]).(children := old(store[parentId.value]).children + [created])]
                            [created := g]
      ensures roots == if parentId.None? then old(roots) + [created] else old(roots)
    {
      created := nextId;
      nextId := nextId + 1;
      if parentId.Some? {
        var p := parentId.value;
        store := store[p := store[p].(children := store[p].children + [created])];
      } else {
        roots := roots + [created];
      }
      store := store[created := Group(name, details, {}, false, {}, {}, [])];
    }

    method AddToGroup(user: User, groupId: Id)
      requires groupId in store
      modifies `store
      ensures store == old(store)[groupId := old(store[groupId]).(members := old(store[groupId]).members + {user})]
    {
      store := store[groupId := store[groupId].(members := store[groupId].members + {user})];
    }

    /** The roles of each listed client that the group has, as far as they have an id and a name. */
    method FetchClientRoleMappings(groupId: Id) returns (mappings: seq<Assignment>)
      requires groupId in store
      ensures forall a :: a in mappings <==>
                && a.client.Some? && a.client.value in settings.clients
                && (a.client.value, a.role) in store[groupId].clientRoles && a.role.id != "" && a.role.name != ""
    {
      mappings := [];
      var clients := ToList(settings.clients);
      for i := 0 to |clients|
        invariant forall a :: a in mappings <==>
                    && a.client.Some? && a.client.value in clients[..i]
                    && (a.client.value, a.role) in store[groupId].clientRoles && a.role.id != "" && a.role.name != ""
      {
        var client := clients[i];
        var roles := ToList(set p | p in store[groupId].clientRoles && p.0 == client :: p.1);
        ghost var before := mappings;
        for j := 0 to |roles|
          invariant forall a :: a in mappings <==>
                      a in before || (a.client == Some(client) && a.role in roles[..j] && a.role.id != "" && a.role.name != "")
        {
          if roles[j].id != "" && roles[j].name != "" {
            mappings := mappings + [Assignment(roles[j], Some(client))];
          }
        }
        assert roles[..|roles|] == roles;
        assert forall r :: r in roles <==> (client, r) in store[groupId].clientRoles;
        assert clients[..i + 1] == clients[..i] + [client];
      }
      assert clients[..|clients|] == clients;
    }

    method AssignRoles(roles: seq<Assignment>, groupId: Id)
      requires groupId in store
      modifies `store
      ensures store == old(store)[groupId := old(store[groupId]).(
                         realmRoles := old(store[groupId]).realmRoles + RealmRolesOf(roles),
                         clientRoles := old(store[groupId]).clientRoles + ClientRolesOf(roles))]
    {
      store := store[groupId := store[groupId].(realmRoles := store[groupId].realmRoles + RealmRolesOf(roles))];
      ghost var start := store;
      assert start[groupId].clientRoles + ClientRolesOf(roles[..0]) == start[groupId].clientRoles;
      for i := 0 to |roles|
        invariant groupId in store && store == start[groupId := store[groupId]]
        invariant store[groupId] == start[groupId].(clientRoles := start[groupId].clientRoles + ClientRolesOf(roles[..i]))
      {
        assert roles[..i + 1] == roles[..i] + [roles[i]];
        ClientRolesSnoc(roles[..i], roles[i]);
        if roles[i].client.Some? && roles[i].client.value != "" && roles[i].role.name != "" {
          var g := store[groupId];
          store := store[groupId := g.(clientRoles := g.clientRoles + {(roles[i].client.value, roles[i].role)})];
        }
        assert store[groupId].clientRoles == start[groupId].clientRoles + ClientRolesOf(roles[..i + 1]);
      }
      assert roles[..|roles|] == roles;
    }

    /** The group's own contents arrive at the copy: members, permissions, roles. */
    method CopyContents(sourceId: Id, created: Id)
      requires Valid() && sourceId in store && created in store && sourceId != created
      requires var g := store[created]; g.members == {} && !g.permissions && g.realmRoles == {} && g.clientRoles == {}
      modifies `store
      ensures Valid() && store == old(store)[created := CopyOf(settings, old(store[sourceId])).(
                           name := old(store[created]).name, details := old(store[created]).details,
                           children := old(store[created]).children)]
    {
      ghost var g, start := store[sourceId], store;
      AddMembers(sourceId, created);
      if !settings.isOrgGroups && settings.fineGrained {
        var permissions := store[sourceId].permissions;
        store := store[created := store[created].(permissions := permissions)];
      }
      if !settings.isOrgGroups {
        var realmRoles := ToList(store[sourceId].realmRoles);
        var clientRoles := FetchClientRoleMappings(sourceId);
        var realmPayload := seq(|realmRoles|, i requires 0 <= i < |realmRoles| => Assignment(realmRoles[i], None));
        PayloadRoles(realmRoles, clientRoles, realmPayload);
        AssignRoles(realmPayload + clientRoles, created);
        assert RealmRolesOf(realmPayload + clientRoles) == CopyOf(settings, g).realmRoles;
        FetchedRoles(settings, g, clientRoles);
        assert {} + CopyOf(settings, g).realmRoles == CopyOf(settings, g).realmRoles;
        assert {} + CopyOf(settings, g).clientRoles == CopyOf(settings, g).clientRoles;
      }
      assert store == start[created := store[created]];
    }

    method AddMembers(sourceId: Id, created: Id)
      requires sourceId in store && created in store && store[created].members == {}
      modifies `store
      ensures store == old(store)[created := old(store[created]).(members := old(store[sourceId]).members)]
    {
      var members := ToList(store[sourceId].members);
      ghost var start := store;
      for i := 0 to |members|
        invariant created in store && store == start[created := store[created]]
        invariant store[created] == start[created].(members := Elements(members[..i]))
      {
        assert Elements(members[..i]) + {members[i]} == Elements(members[..i + 1]);
        AddToGroup(members[i], created);
      }
      assert Elements(members[..|members|]) == start[sourceId].members;
    }

    /**
      * Copies the group and, one after the other, everything below it. `origin` is the forest as it was
      * at the start of the whole copy, of which the groups below `base` are the ones to read.
      */
    method DuplicateGroup(sourceId: Id, newName: Option<string>, parentId: Option<Id>,
                          ghost t: Tree, ghost base: Id, ghost origin: map<Id, Group>)
      returns (created: Id, ghost copy: Tree)
      requires Valid() && base <= nextId && t.id == sourceId
      requires Holds(origin, t, 0, base) && SameFrom(origin, store, 0, base)
      requires parentId.Some? ==> base <= parentId.value && parentId.value in store
      modifies this
      ensures Valid() && created == old(nextId) < nextId && copy.id == created
      ensures Grown(old(store), store, parentId, created, nextId)
      ensures Holds(store, copy, created, nextId) && Preorder(copy) == Range(created, nextId)
      ensures Mirrors(settings, store, copy, origin, t, if newName.Some? then newName.value else origin[sourceId].name)
      ensures roots == if parentId.None? then old(roots) + [created] else old(roots)
      decreases t
    {
      hide Holds, Mirrors, CopyOf, Grown, SameFrom, KidsCopied, Preorder, PreorderAll, Range;
      HoldsRoot(origin, t, base);
      SourceSame(origin, store, t.id, base);
      ghost var before := store;
      var source := store[sourceId];
      var name := if newName.Some? then newName.value else source.name;
      created := Create(name, source.details, parentId);
      CopyContents(sourceId, created);
      var subGroups := store[sourceId].children;
      ghost var kids: seq<Tree> := [];
      CopyStarts(settings, before, store, parentId, created, source, name, nextId, origin, t);
      ghost var rootsNow := roots;
      for i := 0 to |subGroups|
        invariant Valid() && created < nextId && roots == rootsNow && |kids| == i && created in store
        invariant Grown(before, store, parentId, created, nextId)
        invariant KidsCopied(settings, store, source, name, created, nextId, kids, origin, t)
      {
        HoldsKid(origin, t, i, base);
        StillBelow(origin, before, store, parentId, created, nextId, base);
        ghost var mid, next := store, nextId;
        var _, kid := DuplicateGroup(subGroups[i], None, Some(created), t.kids[i], base, origin);
        KidDone(settings, before, mid, store, parentId, source, name, created, next, nextId, kids, kid, origin, t);
        kids := kids + [kid];
      }
      copy := Tree(created, kids);
      CopyComplete(settings, store, copy, source, nextId, origin, t, name);
    }

    /** The dialog's action: a new top-level tree, and nothing else changes. */
    method DuplicateTree(duplicateId: Id, name: string, ghost t: Tree) returns (created: Id, ghost copy: Tree)
      requires Valid() && t.id == duplicateId && Holds(store, t, 0, nextId)
      modifies this
      ensures Valid() && created == old(nextId) && roots == old(roots) + [created]
      ensures forall id :: id in old(store) ==> id in store && store[id] == old(store[id])
      ensures forall id :: id in store && id !in old(store) ==> id in Preorder(copy)
      ensures copy.id == created && Holds(store, copy, created, nextId) && Preorder(copy) == Range(created, nextId)
      ensures Mirrors(settings, store, copy, old(store), t, name)
    {
      ghost var before := store;
      assert Holds(before, t, 0, nextId);
      created, copy := DuplicateGroup(duplicateId, Some(name), None, t, nextId, before);
      forall id | id in store && id !in before
        ensures id in Preorder(copy)
      {
        assert Range(created, nextId)[id - created] == id;
      }
    }

    /** The groups below a group: its children as far as `count` asks for them, then what is below each. */
    method GetSubGroups(groupId: Option<Id>, count: nat, ghost t: Tree) returns (nestedGroups: seq<Id>)
      requires groupId.Some? ==> groupId.value == t.id && exists hi :: Holds(store, t, 0, hi)
      ensures nestedGroups == if groupId.None? then [] else Collected(t, count)
      decreases t
    {
      hide Preorder, PreorderAll, Holds, CollectedAll, Roots;
      nestedGroups := [];
      if count == 0 || groupId.None? {
        return;
      }
      ghost var hi :| Holds(store, t, 0, hi);
      HoldsRoot(store, t, hi);
      var children := store[groupId.value].children;
      var subGroups := if count < |children| then children[..count] else children;
      nestedGroups := nestedGroups + subGroups;
      ghost var kids := if count < |t.kids| then t.kids[..count] else t.kids;
      RootsPrefix(t.kids, count, subGroups);
      NothingCollected();
      for i := 0 to |subGroups|
        invariant nestedGroups == subGroups + CollectedAll(kids[..i])
      {
        HoldsKid(store, t, i, hi);
        HoldsRoot(store, kids[i], hi);
        var groups := GetSubGroups(Some(subGroups[i]), |store[subGroups[i]].children|, kids[i]);
        CollectedSnoc(kids[..i], kids[i]);
        assert kids[..i + 1] == kids[..i] + [kids[i]];
        nestedGroups := nestedGroups + groups;
      }
      assert kids[..|kids|] == kids;
    }

    /** The member list of a group, on request with the members of everything below it, each username once. */
    method Loader(page: seq<User>, includeSubGroup: bool, groupId: Id, ghost t: Tree) returns (members: seq<User>)
      requires groupId == t.id && exists hi :: Holds(store, t, 0, hi)
      ensures !includeSubGroup || t.kids == [] ==> members == page
      ensures includeSubGroup && t.kids != [] ==>
                && Sequences.Distinct(Usernames(members))
                && (forall m :: m in members ==> m in page || IsMemberBelow(store, t, m))
                && (forall m :: m in page || IsMemberBelow(store, t, m) ==> m.username in Usernames(members))
                && (forall i :: 0 <= i < |page| && page[i].username !in Usernames(page[..i]) ==> page[i] in members)
                && FirstOfEach(page) <= members
    {
      members := page;
      ghost var hi :| Holds(store, t, 0, hi);
      if includeSubGroup && |store[groupId].children| > 0 {
        var subGroups := GetSubGroups(Some(groupId), |store[groupId].children|, t);
        CollectsDescendants(t, |t.kids|);
        SameIds(subGroups, PreorderAll(t.kids));
        DescendantsInStore(store, t, hi);
        var users := MembersOf(subGroups);
        members := members + users;
        assert forall m :: m in members <==> m in page || IsMemberBelow(store, t, m);
        ghost var all := members;
        members := UniqByUsername(members);
        forall i | 0 <= i < |page| && page[i].username !in Usernames(page[..i])
          ensures page[i] in members
        {
          assert all[i] == page[i] && all[..i] == page[..i];
        }
        assert all == page + users;
        FirstOfMore(page, users);
      }
    }

    method MembersOf(groups: seq<Id>) returns (members: seq<User>)
      requires forall id :: id in groups ==> id in store
      ensures forall m :: m in members <==> exists id :: id in groups && id in store && m in store[id].members
    {
      members := [];
      for i := 0 to |groups|
        invariant forall m :: m in members <==> exists id :: id in groups[..i] && id in store && m in store[id].members
      {
        assert groups[i] in groups && groups[..i + 1] == groups[..i] + [groups[i]];
        var users := ToList(store[groups[i]].members);
        members := members + users;
      }
      assert groups[..|groups|] == groups;
    }
  }

  function Elements<T>(s: seq<T>): set<T> {
    set x | x in s
  }

  lemma FetchedRoles(settings: Settings, g: Group, mappings: seq<Assignment>)
    requires !settings.isOrgGroups && "" !in settings.clients
    requires forall a :: a in mappings <==>
               && a.client.Some? && a.client.value in settings.clients
               && (a.client.value, a.role) in g.clientRoles && a.role.id != "" && a.role.name != ""
    ensures ClientRolesOf(mappings) == CopyOf(settings, g).clientRoles
  {
    forall p | p in CopyOf(settings, g).clientRoles
      ensures p in ClientRolesOf(mappings)
    {
      assert Assignment(p.1, Some(p.0)) in mappings;
    }
  }

  function RealmRolesOf(roles: seq<Assignment>): set<Role> {
    set a | a in roles && (a.client.None? || a.client.value == "") && a.role.name != "" :: a.role
  }

  function ClientRolesOf(roles: seq<Assignment>): set<(string, Role)> {
    set a | a in roles && a.client.Some? && a.client.value != "" && a.role.name != "" :: (a.client.value, a.role)
  }

  lemma ClientRolesSnoc(roles: seq<Assignment>, a: Assignment)
    ensures ClientRolesOf(roles + [a]) == ClientRolesOf(roles) +
            if a.client.Some? && a.client.value != "" && a.role.name != "" then {(a.client.value, a.role)} else {}
  {
  }

  /** The payload's realm roles are the named ones, its client roles the ones of clients. */
  lemma PayloadRoles(realmRoles: seq<Role>, clientRoles: seq<Assignment>, realmPayload: seq<Assignment>)
    requires |realmPayload| == |realmRoles| && forall i :: 0 <= i < |realmRoles| ==> realmPayload[i] == Assignment(realmRoles[i], None)
    requires forall a :: a in clientRoles ==> a.client.Some? && a.client.value != ""
    ensures RealmRolesOf(realmPayload + clientRoles) == set r | r in realmRoles && r.name != ""
    ensures ClientRolesOf(realmPayload + clientRoles) == ClientRolesOf(clientRoles)
  {
    var all := realmPayload + clientRoles;
    forall r | r in realmRoles && r.name != ""
      ensures r in RealmRolesOf(all)
    {
      var i :| 0 <= i < |realmRoles| && realmRoles[i] == r;
      assert realmPayload[i] in all;
    }
    forall a | a in all
      ensures a in clientRoles || (a.client.None? && a.role in realmRoles)
    {
    }
    forall a | a in clientRoles
      ensures a in all
    {
    }
  }

  /** The forest has grown by the groups from `created` to below `next`; of the others only the parent changed, by its new child. */
  ghost predicate Grown(before: map<Id, Group>, after: map<Id, Group>, parentId: Option<Id>, created: Id, next: Id) {
    && (forall id :: id in after ==> id in before || created <= id < next)
    && (forall id :: id in before ==> id < created && id in after)
    && (forall id :: id in before && parentId != Some(id) ==> after[id] == before[id])
    && (parentId.Some? ==> parentId.value in before && parentId.value in after)
    && (parentId.Some? ==>
          after[parentId.value] == before[parentId.value].(children := before[parentId.value].children + [created]))
    && created in after
  }

  ghost predicate KidCopied(settings: Settings, store: map<Id, Group>, kid: Tree, lo: Id, hi: Id, origin: map<Id, Group>, t: Tree) {
    t.id in origin && Holds(store, kid, lo, hi) && Mirrors(settings, store, kid, origin, t, origin[t.id].name)
  }

  /** The copy's contents are in place, and its first subgroups with everything below them. */
  ghost predicate KidsCopied(settings: Settings, store: map<Id, Group>, source: Group, name: string, created: Id, next: Id,
                             kids: seq<Tree>, origin: map<Id, Group>, t: Tree)
    requires created in store && created < next
  {
    && |kids| <= |t.kids| && PreorderAll(kids) == Range(created + 1, next)
    && store[created] == CopyOf(settings, source).(name := name, children := Roots(kids))
    && forall j :: 0 <= j < |kids| ==> KidCopied(settings, store, kids[j], created + 1, next, origin, t.kids[j])
  }

  lemma KidDone(settings: Settings, before: map<Id, Group>, mid: map<Id, Group>, after: map<Id, Group>, parentId: Option<Id>,
                source: Group, name: string, created: Id, next: Id, next': Id, kids: seq<Tree>, kid: Tree,
                origin: map<Id, Group>, t: Tree)
    requires created < next <= next' && |kids| < |t.kids| && created in mid && t.kids[|kids|].id in origin
    requires Grown(before, mid, parentId, created, next) && Grown(mid, after, Some(created), next, next')
    requires KidsCopied(settings, mid, source, name, created, next, kids, origin, t)
    requires kid.id == next && Holds(after, kid, next, next') && Preorder(kid) == Range(next, next')
    requires Mirrors(settings, after, kid, origin, t.kids[|kids|], origin[t.kids[|kids|].id].name)
    ensures Grown(before, after, parentId, created, next') && created in after
    ensures KidsCopied(settings, after, source, name, created, next', kids + [kid], origin, t)
  {
    hide Holds, Mirrors, CopyOf, Grown, SameFrom, KidCopied, Preorder, PreorderAll;
    PreorderSnoc(kids, kid);
    assert Range(created + 1, next) + Range(next, next') == Range(created + 1, next');
    GrownFurther(before, mid, after, parentId, created, next, next');
    KidsStill(settings, mid, after, kids, created, next, next', origin, t);
    KidNew(settings, after, kid, created, next, next', origin, t.kids[|kids|]);
    assert Roots(kids + [kid]) == Roots(kids) + [kid.id];
  }

  lemma SourceSame(origin: map<Id, Group>, store: map<Id, Group>, id: Id, base: Id)
    requires SameFrom(origin, store, 0, base) && id in origin && id < base
    ensures id in store && store[id] == origin[id]
  {
  }

  lemma HoldsRoot(origin: map<Id, Group>, t: Tree, base: Id)
    requires Holds(origin, t, 0, base)
    ensures t.id in origin && t.id < base && origin[t.id].children == Roots(t.kids)
  {
  }

  lemma HoldsKid(origin: map<Id, Group>, t: Tree, i: nat, base: Id)
    requires Holds(origin, t, 0, base) && i < |t.kids|
    ensures Holds(origin, t.kids[i], 0, base) && t.kids[i].id in origin
  {
  }

  lemma CopyStarts(settings: Settings, before: map<Id, Group>, after: map<Id, Group>, parentId: Option<Id>, created: Id,
                   source: Group, name: string, next: Id, origin: map<Id, Group>, t: Tree)
    requires created !in before && next == created + 1 && (forall id :: id in before ==> id < created)
    requires parentId.Some? ==> parentId.value in before
    requires after == (if parentId.None? then before
                       else before[parentId.value := before[parentId.value].(children := before[parentId.value].children + [created])])
                      [created := CopyOf(settings, source).(name := name, details := source.details, children := [])]
    ensures Grown(before, after, parentId, created, next)
    ensures created in after && KidsCopied(settings, after, source, name, created, next, [], origin, t)
  {
  }

  lemma StillBelow(origin: map<Id, Group>, before: map<Id, Group>, after: map<Id, Group>, parentId: Option<Id>,
                   created: Id, next: Id, base: Id)
    requires SameFrom(origin, before, 0, base) && Grown(before, after, parentId, created, next)
    requires parentId.Some? ==> base <= parentId.value
    ensures SameFrom(origin, after, 0, base)
  {
  }

  lemma GrownFurther(before: map<Id, Group>, mid: map<Id, Group>, after: map<Id, Group>, parentId: Option<Id>,
                     created: Id, next: Id, next': Id)
    requires Grown(before, mid, parentId, created, next) && Grown(mid, after, Some(created), next, next')
    requires created < next
    ensures Grown(before, after, parentId, created, next')
    ensures SameFrom(mid, after, created + 1, next)
    ensures created in mid && created in after && after[created] == mid[created].(children := mid[created].children + [next])
  {
  }

  lemma KidsStill(settings: Settings, mid: map<Id, Group>, after: map<Id, Group>, kids: seq<Tree>, created: Id,
                  next: Id, next': Id, origin: map<Id, Group>, t: Tree)
    requires |kids| <= |t.kids| && next <= next' && SameFrom(mid, after, created + 1, next)
    requires forall j :: 0 <= j < |kids| ==> KidCopied(settings, mid, kids[j], created + 1, next, origin, t.kids[j])
    ensures forall j :: 0 <= j < |kids| ==> KidCopied(settings, after, kids[j], created + 1, next', origin, t.kids[j])
  {
    forall j | 0 <= j < |kids|
      ensures KidCopied(settings, after, kids[j], created + 1, next', origin, t.kids[j])
    {
      assert KidCopied(settings, mid, kids[j], created + 1, next, origin, t.kids[j]);
      HoldsStill(mid, after, kids[j], created + 1, next);
      HoldsWider(after, kids[j], created + 1, next, created + 1, next');
      MirrorsStill(settings, mid, after, kids[j], created + 1, next, origin, t.kids[j], origin[t.kids[j].id].name);
    }
  }

  lemma KidNew(settings: Settings, after: map<Id, Group>, kid: Tree, created: Id, next: Id, next': Id,
               origin: map<Id, Group>, t: Tree)
    requires created < next && Holds(after, kid, next, next') && t.id in origin
    requires Mirrors(settings, after, kid, origin, t, origin[t.id].name)
    ensures KidCopied(settings, after, kid, created + 1, next', origin, t)
  {
    HoldsWider(after, kid, next, next', created + 1, next');
  }

  lemma CopyComplete(settings: Settings, store: map<Id, Group>, copy: Tree, source: Group, next: Id,
                     origin: map<Id, Group>, t: Tree, name: string)
    requires t.id in origin && source == origin[t.id] && copy.id in store && copy.id < next && |copy.kids| == |t.kids|
    requires KidsCopied(settings, store, source, name, copy.id, next, copy.kids, origin, t)
    ensures Holds(store, copy, copy.id, next) && Mirrors(settings, store, copy, origin, t, name)
    ensures Preorder(copy) == Range(copy.id, next)
  {
    hide CopyOf, PreorderAll;
    assert [copy.id] + Range(copy.id + 1, next) == Range(copy.id, next);
    forall j | 0 <= j < |t.kids|
      ensures Holds(store, copy.kids[j], copy.id, next)
      ensures t.kids[j].id in origin && Mirrors(settings, store, copy.kids[j], origin, t.kids[j], origin[t.kids[j].id].name)
    {
      assert KidCopied(settings, store, copy.kids[j], copy.id + 1, next, origin, t.kids[j]);
      HoldsWider(store, copy.kids[j], copy.id + 1, next, copy.id, next);
    }
  }

  /** A level at a time for each group: the children first, then everything below the first child, and so on. */
  function Collected(t: Tree, count: nat): seq<Id> {
    if count == 0 then []
    else
      var kids := if count < |t.kids| then t.kids[..count] else t.kids;
      Roots(kids) + CollectedAll(kids)
  }

  /** What is collected below each of these groups, when the count of each is right. */
  function CollectedAll(ts: seq<Tree>): seq<Id> {
    if ts == [] then [] else Collected(ts[0], |ts[0].kids|) + CollectedAll(ts[1..])
  }

  lemma {:induction false} CollectedSnoc(ts: seq<Tree>, t: Tree)
    ensures CollectedAll(ts + [t]) == CollectedAll(ts) + Collected(t, |t.kids|)
  {
    if ts == [] {
      assert ts + [t] == [t];
    } else {
      assert (ts + [t])[1..] == ts[1..] + [t];
      CollectedSnoc(ts[1..], t);
    }
  }

  /** With the right counts every group below `t` is collected, exactly as often as it is there. */
  lemma {:induction false} CollectsDescendants(t: Tree, count: nat)
    requires count >= |t.kids|
    ensures multiset(Collected(t, count)) == multiset(PreorderAll(t.kids))
    decreases t, 0
  {
    if |t.kids| == 0 {
      assert Collected(t, count) == [];
    } else {
      CollectsAll(t.kids);
    }
  }

  lemma {:induction false} CollectsAll(ts: seq<Tree>)
    ensures multiset(Roots(ts) + CollectedAll(ts)) == multiset(PreorderAll(ts))
    decreases ts
  {
    hide Roots, CollectedAll, Collected, Preorder, PreorderAll;
    if ts == [] {
      NothingCollected();
    } else {
      var t, rest := ts[0], ts[1..];
      CollectsDescendants(t, |t.kids|);
      CollectsAll(rest);
      CollectedUnfold(ts);
      Regrouped([t.id], Roots(rest), Collected(t, |t.kids|), CollectedAll(rest), PreorderAll(t.kids), PreorderAll(rest));
    }
  }

  lemma RootsPrefix(ts: seq<Tree>, count: nat, ids: seq<Id>)
    requires ids == if count < |ts| then Roots(ts)[..count] else Roots(ts)
    ensures ids == Roots(if count < |ts| then ts[..count] else ts) && |ids| == if count < |ts| then count else |ts|
  {
  }

  lemma NothingCollected()
    ensures Roots([]) == CollectedAll([]) == PreorderAll([]) == []
  {
  }

  lemma CollectedUnfold(ts: seq<Tree>)
    requires ts != []
    ensures Roots(ts) == [ts[0].id] + Roots(ts[1..])
    ensures CollectedAll(ts) == Collected(ts[0], |ts[0].kids|) + CollectedAll(ts[1..])
    ensures PreorderAll(ts) == ([ts[0].id] + PreorderAll(ts[0].kids)) + PreorderAll(ts[1..])
  {
    hide Collected;
  }

  lemma Regrouped(a: seq<Id>, r: seq<Id>, c: seq<Id>, d: seq<Id>, p: seq<Id>, q: seq<Id>)
    requires multiset(c) == multiset(p) && multiset(r + d) == multiset(q)
    ensures multiset((a + r) + (c + d)) == multiset((a + p) + q)
  {
    assert multiset(r + d) == multiset(r) + multiset(d);
  }

  ghost predicate IsMemberBelow(store: map<Id, Group>, t: Tree, m: User) {
    exists id :: id in PreorderAll(t.kids) && id in store && m in store[id].members
  }

  lemma SameIds(a: seq<Id>, b: seq<Id>)
    requires multiset(a) == multiset(b)
    ensures forall id :: id in a <==> id in b
  {
    forall id: Id
      ensures id in a <==> id in b
    {
      assert id in a <==> id in multiset(a);
      assert id in b <==> id in multiset(b);
    }
  }

  lemma {:induction false} DescendantsInStore(store: map<Id, Group>, t: Tree, hi: Id)
    requires Holds(store, t, 0, hi)
    ensures forall id :: id in PreorderAll(t.kids) ==> id in store
    decreases t, 0
  {
    AllInStore(store, t.kids, hi);
  }

  lemma {:induction false} AllInStore(store: map<Id, Group>, ts: seq<Tree>, hi: Id)
    requires forall i :: 0 <= i < |ts| ==> Holds(store, ts[i], 0, hi)
    ensures forall id :: id in PreorderAll(ts) ==> id in store
    decreases ts
  {
    if ts != [] {
      DescendantsInStore(store, ts[0], hi);
      AllInStore(store, ts[1..], hi);
    }
  }

  function Usernames(users: seq<User>): (names: seq<string>)
    ensures |names| == |users| && forall i :: 0 <= i < |names| ==> names[i] == users[i].username
  {
    seq(|users|, i requires 0 <= i < |users| => users[i].username)
  }

  /** The first user of each username, in order. */
  function FirstOfEach(users: seq<User>): (r: seq<User>)
    decreases |users|
  {
    if users == [] then []
    else
      var before, last := FirstOfEach(users[..|users| - 1]), users[|users| - 1];
      if last.username in Usernames(before) then before else before + [last]
  }

  lemma {:induction false} FirstOfEachIs(users: seq<User>)
    ensures var r := FirstOfEach(users);
            && Sequences.Distinct(Usernames(r)) && (forall m :: m in r ==> m in users)
            && (forall name :: name in Usernames(r) <==> name in Usernames(users))
    decreases |users|
  {
    if users != [] {
      var front, last := users[..|users| - 1], users[|users| - 1];
      var before := FirstOfEach(front);
      FirstOfEachIs(front);
      assert users == front + [last] && Usernames(users) == Usernames(front) + [last.username];
      assert Usernames(before + [last]) == Usernames(before) + [last.username];
    }
  }

  /** A user whose username does not come before is kept. */
  lemma {:induction false} FirstIsKept(users: seq<User>, i: nat)
    requires i < |users| && users[i].username !in Usernames(users[..i])
    ensures users[i] in FirstOfEach(users)
    decreases |users|
  {
    var n := |users| - 1;
    FirstOfEachIs(users[..n]);
    if i < n {
      assert users[..n][..i] == users[..i];
      FirstIsKept(users[..n], i);
    }
  }

  lemma {:induction false} FirstOfMore(a: seq<User>, b: seq<User>)
    ensures FirstOfEach(a) <= FirstOfEach(a + b)
    decreases |b|
  {
    if b == [] {
      assert a + b == a;
    } else {
      assert (a + b)[..|a + b| - 1] == a + b[..|b| - 1];
      FirstOfMore(a, b[..|b| - 1]);
    }
  }

  lemma {:induction false} FirstOfDistinct(users: seq<User>)
    requires Sequences.Distinct(Usernames(users))
    ensures FirstOfEach(users) == users
    decreases |users|
  {
    if users != [] {
      var front, last := users[..|users| - 1], users[|users| - 1];
      assert Usernames(users) == Usernames(front) + [last.username];
      FirstOfDistinct(front);
    }
  }

  /** `uniqBy(users, user => user.username)` */
  method UniqByUsername(users: seq<User>) returns (result: seq<User>)
    ensures result == FirstOfEach(users)
    ensures Sequences.Distinct(Usernames(result))
    ensures forall m :: m in result ==> m in users
    ensures forall name :: name in Usernames(users) <==> name in Usernames(result)
    ensures forall i :: 0 <= i < |users| && users[i].username !in Usernames(users[..i]) ==> users[i] in result
  {
    hide FirstOfEach;
    result := [];
    NoneFirst();
    for i := 0 to |users|
      invariant result == FirstOfEach(users[..i])
    {
      NextFirst(users, i);
      if users[i].username !in Usernames(result) {
        result := result + [users[i]];
      }
    }
    assert users[..|users|] == users;
    FirstOfEachIs(users);
    forall i | 0 <= i < |users| && users[i].username !in Usernames(users[..i])
      ensures users[i] in result
    {
      FirstIsKept(users, i);
    }
  }

  lemma NoneFirst()
    ensures FirstOfEach([]) == []
  {
  }

  lemma NextFirst(users: seq<User>, i: nat)
    requires i < |users|
    ensures var before := FirstOfEach(users[..i]);
            FirstOfEach(users[..i + 1]) == if users[i].username in Usernames(before) then before else before + [users[i]]
  {
    assert users[..i + 1][..i] == users[..i];
  }

  /** What the copy of a group has: an organisation's groups lose permissions and roles, the others roles without a name. */
  lemma CopyHas(settings: Settings, g: Group)
    ensures var c := CopyOf(settings, g);
            && c.name == g.name && c.details == g.details && c.members == g.members && c.children == []
            && (c.permissions <==> g.permissions && settings.fineGrained && !settings.isOrgGroups)
            && (settings.isOrgGroups ==> c.realmRoles == {} && c.clientRoles == {})
            && (!settings.isOrgGroups ==> forall r :: r in c.realmRoles <==> r in g.realmRoles && r.name != "")
            && (!settings.isOrgGroups ==> forall client, r :: (client, r) in c.clientRoles <==>
                  (client, r) in g.clientRoles && client in settings.clients && r.id != "" && r.name != "")
  {
  }

  /** A group whose roles are all named and belong to listed clients is copied with all its roles. */
  lemma CopyIsFaithful(settings: Settings, g: Group)
    requires !settings.isOrgGroups
    ensures CopyOf(settings, g).realmRoles == g.realmRoles <==> forall r :: r in g.realmRoles ==> r.name != ""
    ensures CopyOf(settings, g).clientRoles == g.clientRoles <==>
            forall p :: p in g.clientRoles ==> p.0 in settings.clients && p.1.id != "" && p.1.name != ""
    ensures CopyOf(settings, g).members == g.members && CopyOf(settings, g).details == g.details
  {
    forall r | r in g.realmRoles
      ensures r in CopyOf(settings, g).realmRoles <==> r.name != ""
    {
    }
    forall p | p in g.clientRoles
      ensures p in CopyOf(settings, g).clientRoles <==> p.0 in settings.clients && p.1.id != "" && p.1.name != ""
    {
    }
  }
}
