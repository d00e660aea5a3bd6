/**
  * Editing one client policy inside the list that is sent to the server. Conditions and profiles are
  * deleted in place, in the arrays of the policy being edited, so what is sent depends on which objects
  * the list holds and on no two policies sharing an array.
  */
module PolicyEditor {
  import opened Common
  import opened Sequences

  /** A JavaScript array of names. */
  class NameList {
    var items: seq<string>

    constructor (items: seq<string>)
      ensures this.items == items
    {
      this.items := items;
    }

    /** `splice(at, 1)`; past the end it removes nothing. */
    method Splice(at: nat)
      modifies this
      ensures items == WithoutAt(old(items), at)
    {
      items := WithoutAt(items, at);
    }
  }

  function WithoutAt(items: seq<string>, at: nat): seq<string> {
    if at < |items| then items[..at] + items[at + 1..] else items
  }

  /** One item fewer, the others in their order; past the end nothing changes. */
  lemma WithoutOne(items: seq<string>, at: nat)
    ensures at >= |items| ==> WithoutAt(items, at) == items
    ensures at < |items| ==>
              && |WithoutAt(items, at)| == |items| - 1
              && forall i :: 0 <= i < |items| - 1 ==> WithoutAt(items, at)[i] == items[if i < at then i else i + 1]
  {
  }

  class Policy {
    const name: string
    const description: string
    const enabled: bool
    const conditions: NameList?
    const profiles: NameList?

    constructor (name: string, description: string, enabled: bool, conditions: NameList?, profiles: NameList?)
      ensures this.name == name && this.description == description && this.enabled == enabled
      ensures this.conditions == conditions && this.profiles == profiles
    {
      this.name, this.description, this.enabled := name, description, enabled;
      this.conditions, this.profiles := conditions, profiles;
    }
  }

  /** A policy as it is sent. */
  datatype PolicyValue = PolicyValue(name: string, description: string, enabled: bool,
                                     conditions: Option<seq<string>>, profiles: Option<seq<string>>)

  function ItemsOf(list: NameList?): Option<seq<string>>
    reads list
  {
    if list == null then None else Some(list.items)
  }

  function ValueOf(p: Policy): PolicyValue
    reads p.conditions, p.profiles
  {
    PolicyValue(p.name, p.description, p.enabled, ItemsOf(p.conditions), ItemsOf(p.profiles))
  }

  ghost function Lists(policies: seq<Policy>): set<object?>
  {
    (set p | p in policies :: p.conditions) + (set p | p in policies :: p.profiles)
  }

  /** What is sent for a list of policies. */
  function Values(policies: seq<Policy>): (vs: seq<PolicyValue>)
    reads Lists(policies)
    ensures |vs| == |policies| && forall i :: 0 <= i < |vs| ==> vs[i] == ValueOf(policies[i])
  {
    if policies == [] then []
    else
      var last := policies[|policies| - 1];
      assert last in policies;
      assert forall p :: p in policies[..|policies| - 1] ==> p in policies;
      Values(policies[..|policies| - 1]) + [ValueOf(last)]
  }

  function NamesOf(policies: seq<Policy>): (names: seq<string>)
    ensures |names| == |policies| && forall i :: 0 <= i < |names| ==> names[i] == policies[i].name
  {
    seq(|policies|, i requires 0 <= i < |policies| => policies[i].name)
  }

  /** Two places do not hold the same array; a missing array is no array. */
  ghost predicate Apart(a: NameList?, b: NameList?) {
    a != null ==> a != b
  }

  ghost predicate PoliciesApart(p: Policy, q: Policy) {
    Apart(p.conditions, q.conditions) && Apart(p.conditions, q.profiles) &&
    Apart(p.profiles, q.conditions) && Apart(p.profiles, q.profiles)
  }

  ghost predicate NothingShared(policies: seq<Policy>) {
    && (forall p, q :: p in policies && q in policies && p != q ==> PoliciesApart(p, q))
    && (forall p :: p in policies ==> Apart(p.conditions, p.profiles))
  }

  /** The first policy of that name. */
  function FindByName(policies: seq<Policy>, name: Option<string>): (r: Option<Policy>)
  {
    if name.None? then None
    else
      var i := IndexOf(NamesOf(policies), name.value);
      if i == -1 then None else Some(policies[i])
  }

  function ConditionsOf(p: Option<Policy>): NameList? {
    if p.None? then null else p.value.conditions
  }

  function ProfilesOf(p: Option<Policy>): NameList? {
    if p.None? then null else p.value.profiles
  }

  /** `?? []` */
  function OrEmpty(list: NameList?): seq<string>
    reads list
  {
    if list == null then [] else list.items
  }

  /** `map`: every policy of the new one's name gives way to it. */
  function Replaced(policies: seq<Policy>, created: Policy): (r: seq<Policy>)
    ensures |r| == |policies|
  {
    seq(|policies|, i requires 0 <= i < |policies| => if policies[i].name == created.name then created else policies[i])
  }

  /** `filter`: the policies of other names. */
  function Others(policies: seq<Policy>, name: Option<string>): (r: seq<Policy>) {
    if policies == [] then []
    else (if Some(policies[0].name) != name then [policies[0]] else []) + Others(policies[1..], name)
  }

  /** The list to send when a policy is saved. */
  function AllPolicies(policies: seq<Policy>, policyName: Option<string>, created: Policy): seq<Policy> {
    if created.name in NamesOf(policies) then Replaced(policies, created)
    else if Some(created.name) != policyName then Others(policies, policyName) + [created]
    else policies + [created]
  }

  /** What the form checks before its submit button saves: no other policy has the name. */
  predicate Validated(policies: seq<Policy>, policyName: Option<string>, name: string) {
    Some(name) == policyName || name !in NamesOf(policies)
  }

  /** The old policies that stay in the list when `name` is saved. */
  predicate Kept(policies: seq<Policy>, policyName: Option<string>, name: string, p: Policy) {
    && p in policies && p.name != name
    && (name in NamesOf(policies) || Some(name) == policyName || Some(p.name) != policyName)
  }

  lemma NameIsListed(policies: seq<Policy>, p: Policy)
    requires p in policies
    ensures p.name in NamesOf(policies)
  {
    var i :| 0 <= i < |policies| && policies[i] == p;
    assert NamesOf(policies)[i] == p.name;
  }

  lemma SameNameSamePolicy(policies: seq<Policy>, p: Policy, q: Policy)
    requires Distinct(NamesOf(policies)) && p in policies && q in policies
    ensures p == q <==> p.name == q.name
  {
    var i :| 0 <= i < |policies| && policies[i] == p;
    var j :| 0 <= j < |policies| && policies[j] == q;
    assert NamesOf(policies)[i] == p.name && NamesOf(policies)[j] == q.name;
  }

  lemma FoundByName(policies: seq<Policy>, name: Option<string>)
    ensures var found := FindByName(policies, name);
            && (found.Some? <==> exists p :: p in policies && Some(p.name) == name)
            && (found.Some? ==> found.value in policies && Some(found.value.name) == name)
  {
    if name.Some? {
      forall p | p in policies && p.name == name.value
        ensures name.value in NamesOf(policies)
      {
        NameIsListed(policies, p);
      }
    }
  }

  lemma {:induction false} OthersAre(policies: seq<Policy>, name: Option<string>, p: Policy)
    ensures p in Others(policies, name) <==> p in policies && Some(p.name) != name
  {
    if policies != [] {
      OthersAre(policies[1..], name, p);
      assert p in policies <==> p == policies[0] || p in policies[1..];
    }
  }

  lemma {:induction false} OthersDistinct(policies: seq<Policy>, name: Option<string>)
    requires Distinct(NamesOf(policies))
    ensures Distinct(NamesOf(Others(policies, name)))
  {
    if policies != [] {
      var rest := policies[1..];
      assert NamesOf(rest) == NamesOf(policies)[1..];
      OthersDistinct(rest, name);
      var kept := Others(rest, name);
      forall i | 0 <= i < |kept|
        ensures kept[i].name != policies[0].name
      {
        OthersAre(rest, name, kept[i]);
        var j :| 0 <= j < |rest| && rest[j] == kept[i];
        assert NamesOf(policies)[j + 1] == kept[i].name;
      }
      PrependDistinct(policies[0], kept);
      assert Some(policies[0].name) == name ==> Others(policies, name) == kept;
    }
  }

  lemma PrependDistinct(p: Policy, kept: seq<Policy>)
    requires Distinct(NamesOf(kept)) && forall i :: 0 <= i < |kept| ==> kept[i].name != p.name
    ensures Distinct(NamesOf([p] + kept))
  {
    assert NamesOf([p] + kept) == [p.name] + NamesOf(kept);
  }

  lemma AppendDistinct(kept: seq<Policy>, p: Policy)
    requires Distinct(NamesOf(kept)) && forall i :: 0 <= i < |kept| ==> kept[i].name != p.name
    ensures Distinct(NamesOf(kept + [p]))
  {
    assert NamesOf(kept + [p]) == NamesOf(kept) + [p.name];
  }

  /** Whatever is saved under whatever name, names stay distinct. */
  lemma NamesStayDistinct(policies: seq<Policy>, policyName: Option<string>, created: Policy)
    requires Distinct(NamesOf(policies))
    ensures Distinct(NamesOf(AllPolicies(policies, policyName, created)))
  {
    if created.name in NamesOf(policies) {
      assert NamesOf(Replaced(policies, created)) == NamesOf(policies);
    } else {
      var kept := if Some(created.name) != policyName then Others(policies, policyName) else policies;
      OthersDistinct(policies, policyName);
      forall i | 0 <= i < |kept|
        ensures kept[i].name != created.name
      {
        OthersAre(policies, policyName, kept[i]);
        NameIsListed(policies, kept[i]);
      }
      AppendDistinct(kept, created);
    }
  }

  /** Saving puts exactly one new object into the list; the others are old ones. */
  lemma SavedListHolds(policies: seq<Policy>, policyName: Option<string>, created: Policy, p: Policy)
    ensures p in AllPolicies(policies, policyName, created) <==> p == created || Kept(policies, policyName, created.name, p)
  {
    var updated := AllPolicies(policies, policyName, created);
    if created.name in NamesOf(policies) {
      var i :| 0 <= i < |policies| && NamesOf(policies)[i] == created.name;
      assert updated[i] == created;
      if p in policies && p.name != created.name {
        var j :| 0 <= j < |policies| && policies[j] == p;
        assert updated[j] == p;
      }
    } else {
      assert updated[|updated| - 1] == created;
      OthersAre(policies, policyName, p);
      if p in policies {
        NameIsListed(policies, p);
        assert p in Others(policies, policyName) ==> p in Others(policies, policyName) + [created];
      }
    }
  }

  /** The saved policy takes the place of the one of its name; a new name goes to the end. */
  lemma SavedPlace(policies: seq<Policy>, policyName: Option<string>, created: Policy)
    ensures var updated := AllPolicies(policies, policyName, created);
            if created.name in NamesOf(policies) then
              |updated| == |policies| && forall i :: 0 <= i < |policies| ==>
                updated[i] == if policies[i].name == created.name then created else policies[i]
            else updated != [] && updated[|updated| - 1] == created
  {
  }

  lemma {:induction false} OthersOfUnnamed(policies: seq<Policy>, name: Option<string>)
    requires name.None? || name.value !in NamesOf(policies)
    ensures Others(policies, name) == policies
  {
    if policies != [] {
      assert NamesOf(policies)[0] == policies[0].name;
      assert NamesOf(policies[1..]) == NamesOf(policies)[1..];
      OthersOfUnnamed(policies[1..], name);
    }
  }

  lemma {:induction false} OthersOfReplaced(policies: seq<Policy>, created: Policy)
    ensures Others(Replaced(policies, created), Some(created.name)) == Others(policies, Some(created.name))
  {
    if policies != [] {
      assert Replaced(policies, created)[1..] == Replaced(policies[1..], created);
      OthersOfReplaced(policies[1..], created);
    }
  }

  lemma {:induction false} OthersOfSum(left: seq<Policy>, right: seq<Policy>, name: Option<string>)
    ensures Others(left + right, name) == Others(left, name) + Others(right, name)
  {
    if left == [] {
      assert left + right == right;
    } else {
      assert (left + right)[1..] == left[1..] + right;
      OthersOfSum(left[1..], right, name);
    }
  }

  lemma OthersOfAppended(kept: seq<Policy>, created: Policy)
    requires created.name !in NamesOf(kept)
    ensures Others(kept + [created], Some(created.name)) == kept
  {
    OthersOfSum(kept, [created], Some(created.name));
    OthersOfUnnamed(kept, Some(created.name));
    assert Others([created], Some(created.name)) == [];
  }

  lemma OthersLackName(policies: seq<Policy>, policyName: Option<string>, name: string)
    requires name !in NamesOf(policies)
    ensures name !in NamesOf(Others(policies, policyName))
  {
    var kept := Others(policies, policyName);
    forall i | 0 <= i < |kept|
      ensures kept[i].name != name
    {
      OthersAre(policies, policyName, kept[i]);
      NameIsListed(policies, kept[i]);
    }
  }

  /**
    * A save leaves every other policy where it was, and the same object, exactly when the form had
    * validated the name. The enable switch saves without validating.
    */
  lemma SaveTouchesOnePolicy(policies: seq<Policy>, policyName: Option<string>, created: Policy)
    ensures Others(AllPolicies(policies, policyName, created), Some(created.name)) == Others(policies, policyName)
       <==> Validated(policies, policyName, created.name)
  {
    var name := Some(created.name);
    if created.name in NamesOf(policies) {
      OthersOfReplaced(policies, created);
      if name != policyName {
        var i :| 0 <= i < |policies| && NamesOf(policies)[i] == created.name;
        OthersAre(policies, policyName, policies[i]);
        OthersAre(policies, name, policies[i]);
      }
    } else if name != policyName {
      OthersLackName(policies, policyName, created.name);
      OthersOfAppended(Others(policies, policyName), created);
    } else {
      OthersOfAppended(policies, created);
      OthersOfUnnamed(policies, policyName);
    }
  }

  /** An array of the saved policy: the one it inherits, or a new one. */
  ghost predicate Inherits(list: NameList?, inherited: NameList?, policies: seq<Policy>) {
    list != null && (if inherited != null then list == inherited else list !in Lists(policies))
  }

  ghost predicate InheritsFrom(created: Policy, policies: seq<Policy>, policyName: Option<string>) {
    var existing := FindByName(policies, policyName);
    && Inherits(created.conditions, ConditionsOf(existing), policies)
    && Inherits(created.profiles, ProfilesOf(existing), policies)
    && created.conditions != created.profiles && created !in policies
  }

  /** The saved policy takes over the arrays of a policy that has any. */
  predicate TakesOverArrays(policies: seq<Policy>, policyName: Option<string>) {
    var existing := FindByName(policies, policyName);
    ConditionsOf(existing) != null || ProfilesOf(existing) != null
  }

  lemma InheritedIsApart(policies: seq<Policy>, policyName: Option<string>, created: Policy, q: Policy)
    requires Distinct(NamesOf(policies)) && NothingShared(policies) && InheritsFrom(created, policies, policyName)
    requires q in policies && (Some(q.name) != policyName || !TakesOverArrays(policies, policyName))
    ensures PoliciesApart(created, q) && PoliciesApart(q, created)
  {
    FoundByName(policies, policyName);
    assert q.conditions in Lists(policies) && q.profiles in Lists(policies);
    var existing := FindByName(policies, policyName);
    if existing.Some? && Some(q.name) != policyName {
      assert PoliciesApart(existing.value, q);
    }
  }

  /** After a save no two policies share an array, exactly when the name was validated or there was no array to take over. */
  lemma SavedArrays(policies: seq<Policy>, policyName: Option<string>, created: Policy)
    requires Distinct(NamesOf(policies)) && NothingShared(policies) && InheritsFrom(created, policies, policyName)
    ensures NothingShared(AllPolicies(policies, policyName, created))
       <==> Validated(policies, policyName, created.name) || !TakesOverArrays(policies, policyName)
  {
    hide NothingShared, InheritsFrom, PoliciesApart, AllPolicies, TakesOverArrays;
    if Validated(policies, policyName, created.name) || !TakesOverArrays(policies, policyName) {
      SafeSave(policies, policyName, created);
    } else {
      Collision(policies, policyName, created);
    }
  }

  lemma CreatedApart(policies: seq<Policy>, policyName: Option<string>, created: Policy)
    requires InheritsFrom(created, policies, policyName)
    ensures Apart(created.conditions, created.profiles)
  {
  }

  lemma SafeSave(policies: seq<Policy>, policyName: Option<string>, created: Policy)
    requires Distinct(NamesOf(policies)) && NothingShared(policies) && InheritsFrom(created, policies, policyName)
    requires Validated(policies, policyName, created.name) || !TakesOverArrays(policies, policyName)
    ensures NothingShared(AllPolicies(policies, policyName, created))
  {
    hide InheritsFrom, PoliciesApart, AllPolicies, TakesOverArrays, Apart;
    var updated := AllPolicies(policies, policyName, created);
    forall p | p in updated && p != created
      ensures p in policies && (Some(p.name) != policyName || !TakesOverArrays(policies, policyName))
    {
      SavedListHolds(policies, policyName, created, p);
    }
    forall p | p in updated
      ensures Apart(p.conditions, p.profiles)
    {
      CreatedApart(policies, policyName, created);
    }
    forall p, q | p in updated && q in updated && p != q
      ensures PoliciesApart(p, q)
    {
      if p == created {
        InheritedIsApart(policies, policyName, created, q);
      } else if q == created {
        InheritedIsApart(policies, policyName, created, p);
      }
    }
  }

  lemma Collision(policies: seq<Policy>, policyName: Option<string>, created: Policy)
    requires Distinct(NamesOf(policies)) && InheritsFrom(created, policies, policyName)
    requires !Validated(policies, policyName, created.name) && TakesOverArrays(policies, policyName)
    ensures !NothingShared(AllPolicies(policies, policyName, created))
  {
    hide AllPolicies;
    FoundByName(policies, policyName);
    var existing := FindByName(policies, policyName).value;
    SavedListHolds(policies, policyName, created, existing);
    SavedListHolds(policies, policyName, created, created);
    assert !PoliciesApart(existing, created);
  }

  /** The arrays of one policy are found nowhere else in the list. */
  lemma OnlyThere(policies: seq<Policy>, current: Policy)
    requires NothingShared(policies) && current in policies
    ensures current.conditions != null ==>
      forall p :: p in policies ==> current.conditions != p.profiles && (current.conditions == p.conditions ==> p == current)
    ensures current.profiles != null ==>
      forall p :: p in policies ==> current.profiles != p.conditions && (current.profiles == p.profiles ==> p == current)
  {
    forall p | p in policies
      ensures p != current ==> PoliciesApart(current, p)
      ensures Apart(p.conditions, p.profiles)
    {
    }
  }

  /** One policy's conditions spliced. */
  function WithoutCondition(v: PolicyValue, at: nat): PolicyValue {
    if v.conditions.None? then v else v.(conditions := Some(WithoutAt(v.conditions.value, at)))
  }

  function WithoutProfile(v: PolicyValue, at: nat): PolicyValue {
    if v.profiles.None? then v else v.(profiles := Some(WithoutAt(v.profiles.value, at)))
  }

  /** What an array holds after a splice of one of the arrays. */
  function AfterSplice(list: NameList?, spliced: NameList, at: nat, was: Option<seq<string>>): Option<seq<string>> {
    if list == spliced && was.Some? then Some(WithoutAt(was.value, at)) else was
  }

  /** The list's policies after one array was spliced, `was` being what they were before. */
  ghost predicate Spliced(policies: seq<Policy>, spliced: NameList, at: nat, was: seq<PolicyValue>)
    requires |was| == |policies|
    reads Lists(policies)
  {
    forall i :: 0 <= i < |policies| ==>
      var p := policies[i];
      Values(policies)[i] == PolicyValue(p.name, p.description, p.enabled,
                                         AfterSplice(p.conditions, spliced, at, was[i].conditions),
                                         AfterSplice(p.profiles, spliced, at, was[i].profiles))
  }

  predicate SamePlainFields(p: Policy, v: PolicyValue) {
    p.name == v.name && p.description == v.description && p.enabled == v.enabled
  }

  /** Only the policy being edited changes when its own array is spliced. */
  lemma ConditionSpliced(policies: seq<Policy>, current: Policy, at: nat, was: seq<PolicyValue>)
    requires NothingShared(policies) && current in policies && current.conditions != null
    requires |was| == |policies| && Spliced(policies, current.conditions, at, was)
    requires forall i :: 0 <= i < |was| ==> SamePlainFields(policies[i], was[i])
    ensures forall i :: 0 <= i < |policies| ==>
      Values(policies)[i] == if policies[i] == current then WithoutCondition(was[i], at) else was[i]
  {
    hide NothingShared;
    OnlyThere(policies, current);
  }

  lemma ProfileSpliced(policies: seq<Policy>, current: Policy, at: nat, was: seq<PolicyValue>)
    requires NothingShared(policies) && current in policies && current.profiles != null
    requires |was| == |policies| && Spliced(policies, current.profiles, at, was)
    requires forall i :: 0 <= i < |was| ==> SamePlainFields(policies[i], was[i])
    ensures forall i :: 0 <= i < |policies| ==>
      Values(policies)[i] == if policies[i] == current then WithoutProfile(was[i], at) else was[i]
  {
    hide NothingShared;
    OnlyThere(policies, current);
  }

  /** The policy whose profiles the page shows is the one being edited, exactly when the address names it and no global policy. */
  lemma ShownIsCurrent(globalPolicies: seq<Policy>, policies: seq<Policy>, policyName: Option<string>, current: Policy)
    requires Distinct(NamesOf(policies)) && current in policies && current !in globalPolicies
    ensures FindByName(globalPolicies + policies, policyName) == Some(current)
       <==> policyName == Some(current.name) && current.name !in NamesOf(globalPolicies)
  {
    var all := globalPolicies + policies;
    var k :| 0 <= k < |policies| && policies[k] == current;
    assert NamesOf(all) == NamesOf(globalPolicies) + NamesOf(policies);
    assert NamesOf(policies)[k] == current.name;
    if policyName == Some(current.name) {
      if current.name !in NamesOf(globalPolicies) {
        assert current.name !in NamesOf(policies)[..k];
        IndexOfIs(NamesOf(all), current.name, |globalPolicies| + k);
      } else {
        var j :| 0 <= j < |globalPolicies| && NamesOf(globalPolicies)[j] == current.name;
        var r := IndexOf(NamesOf(all), current.name);
        assert NamesOf(all)[j] == current.name;
        IndexOfAtMost(NamesOf(all), current.name, j);
        assert all[r] in globalPolicies;
      }
    } else {
      FoundByName(all, policyName);
    }
  }

  /** The policy being edited gives way to one with its name and conditions and a new array of profiles. */
  ghost predicate Supersedes(created: Policy, current: Policy, policies: seq<Policy>) {
    && created.name == current.name && created !in policies
    && created.conditions == current.conditions && created.profiles != null && created.profiles !in Lists(policies)
  }

  lemma ReplacedHolds(policies: seq<Policy>, created: Policy, current: Policy)
    requires Distinct(NamesOf(policies)) && current in policies && created.name == current.name
    ensures var updated := Replaced(policies, created);
            && created in updated && NamesOf(updated) == NamesOf(policies)
            && (forall i :: 0 <= i < |policies| ==> updated[i] == if policies[i] == current then created else policies[i])
  {
    var k :| 0 <= k < |policies| && policies[k] == current;
    assert Replaced(policies, created)[k] == created;
    forall p | p in policies
      ensures p == current <==> p.name == created.name
    {
      SameNameSamePolicy(policies, p, current);
    }
  }

  lemma SupersedesApart(policies: seq<Policy>, created: Policy, current: Policy, q: Policy)
    requires NothingShared(policies) && current in policies && q in policies && q != current
    requires Supersedes(created, current, policies)
    ensures PoliciesApart(created, q) && PoliciesApart(q, created) && Apart(created.conditions, created.profiles)
  {
    assert PoliciesApart(current, q) && PoliciesApart(q, current);
    assert q.conditions in Lists(policies) && q.profiles in Lists(policies) && current.conditions in Lists(policies);
  }

  lemma SupersededApart(policies: seq<Policy>, created: Policy, current: Policy)
    requires Distinct(NamesOf(policies)) && NothingShared(policies) && current in policies
    requires Supersedes(created, current, policies)
    ensures NothingShared(Replaced(policies, created))
  {
    hide Distinct, NamesOf, PoliciesApart, Lists, Replaced;
    ReplacedHolds(policies, created, current);
    var updated := Replaced(policies, created);
    assert current.conditions in Lists(policies) by {
      ListsHold(policies, current);
    }
    assert forall p :: p in updated && p != created ==> p in policies && p != current;
    forall p, q | p in updated && q in updated && p != q
      ensures PoliciesApart(p, q)
    {
      if p == created {
        SupersedesApart(policies, created, current, q);
      } else if q == created {
        SupersedesApart(policies, created, current, p);
      }
    }
  }

  lemma ListsHold(policies: seq<Policy>, p: Policy)
    requires p in policies
    ensures p.conditions in Lists(policies) && p.profiles in Lists(policies)
  {
  }

  /** Saved from the enable switch under the name of another policy, the policy loses its arrays to that one. */
  lemma UnvalidatedSaveExample(a: Policy, b: Policy, created: Policy)
    requires a.name == "a" && b.name == "b" && created.name == "b" && a.conditions != null && InheritsFrom(created, [a, b], Some("a"))
    ensures !Validated([a, b], Some("a"), "b") && !NothingShared(AllPolicies([a, b], Some("a"), created))
  {
    var names := NamesOf([a, b]);
    assert names[1] == "b" && names == ["a", "b"];
    assert FindByName([a, b], Some("a")) == Some(a);
    Collision([a, b], Some("a"), created);
  }

  /** With an unsaved name in the address the page shows no profiles, and adding one would drop those there are. */
  lemma UnsavedNameExample(a: Policy)
    requires a.name == "saved"
    ensures FindByName([] + [a], Some("unsaved")) == None
  {
    FoundByName([] + [a], Some("unsaved"));
  }

  class Editor {
    var policies: seq<Policy>
    var globalPolicies: seq<Policy>
    var currentPolicy: Policy?
    var policyName: Option<string>
    var isGlobalPolicy: bool
    ghost var server: seq<PolicyValue>

    /** Names do not repeat, and the policy being edited, unless a global one is shown, is one of the objects in the list. */
    ghost predicate Consistent()
      reads this
    {
      Distinct(NamesOf(policies)) && (currentPolicy != null && !isGlobalPolicy ==> currentPolicy in policies)
    }

    ghost predicate Valid()
      reads this
    {
      Consistent() && NothingShared(policies)
    }

    ghost function Sent(): seq<PolicyValue>
      reads this, Lists(policies)
    {
      Values(policies)
    }

    /** The page is opened on the server's lists, for the policy named in its address; a global one is only shown. */
    constructor (policies: seq<Policy>, globalPolicies: seq<Policy>, policyName: Option<string>)
      requires Distinct(NamesOf(policies)) && NothingShared(policies)
      ensures Valid() && this.policies == policies && this.globalPolicies == globalPolicies
      ensures this.policyName == policyName && server == Values(policies)
      ensures var own, other := FindByName(policies, policyName), FindByName(globalPolicies, policyName);
              && (isGlobalPolicy <==> own.None? && other.Some?)
              && (if own.Some? then currentPolicy == own.value else if other.Some? then currentPolicy == other.value
                  else currentPolicy == null)
      ensures currentPolicy != null ==>
                Some(currentPolicy.name) == policyName && currentPolicy in if isGlobalPolicy then globalPolicies else policies
    {
      hide Distinct, NamesOf, FindByName, NothingShared, Values, ValueOf;
      this.policies, this.globalPolicies, this.policyName := policies, globalPolicies, policyName;
      var found := FindByName(policies, policyName);
      FoundByName(policies, policyName);
      isGlobalPolicy := false;
      if found.None? {
        found := FindByName(globalPolicies, policyName);
        FoundByName(globalPolicies, policyName);
        isGlobalPolicy := found.Some?;
      }
      currentPolicy := if found.Some? then found.value else null;
      server := Values(policies);
    }

    /** `existing ?? []`: an array that is there is taken over, not copied. */
    method TakeOver(inherited: NameList?) returns (list: NameList)
      ensures inherited != null ==> list == inherited
      ensures inherited == null ==> fresh(list) && list.items == []
    {
      if inherited != null {
        list := inherited;
      } else {
        list := new NameList([]);
      }
    }

    method NewPolicy(name: string, description: string, enabled: bool) returns (created: Policy)
      requires Consistent() && !isGlobalPolicy
      ensures fresh(created) && created.name == name
      ensures NothingShared(policies) ==> InheritsFrom(created, policies, policyName)
      ensures var existing := FindByName(policies, policyName);
              ValueOf(created) == PolicyValue(name, description, enabled, Some(old(OrEmpty(ConditionsOf(existing)))),
                                              Some(old(OrEmpty(ProfilesOf(existing)))))
    {
      hide Distinct, NamesOf, FindByName;
      var existing := FindByName(policies, policyName);
      FoundByName(policies, policyName);
      var conditions := TakeOver(ConditionsOf(existing));
      var profiles := TakeOver(ProfilesOf(existing));
      created := new Policy(name, description, enabled, conditions, profiles);
    }

    /** Saving the form: creating, renaming or updating. `accepted` says whether the server takes the list. */
    method Save(name: string, description: string, enabled: bool, accepted: bool) returns (created: Policy)
      requires Consistent() && !isGlobalPolicy
      modifies this
      ensures fresh(created) && Consistent()
      ensures var existing := FindByName(old(policies), old(policyName));
              ValueOf(created) == PolicyValue(name, description, enabled, Some(old(OrEmpty(ConditionsOf(existing)))),
                                              Some(old(OrEmpty(ProfilesOf(existing)))))
      ensures globalPolicies == old(globalPolicies) && !isGlobalPolicy
      ensures !accepted ==> policies == old(policies) && currentPolicy == old(currentPolicy) &&
                            policyName == old(policyName) && server == old(server)
      ensures accepted ==> policies == AllPolicies(old(policies), old(policyName), created) &&
                           currentPolicy == created && policyName == Some(name) && server == Values(policies)
      ensures accepted && old(Valid()) ==> (Valid() <==> Validated(old(policies), old(policyName), name) ||
                                                         !TakesOverArrays(old(policies), old(policyName)))
    {
      hide Distinct, NamesOf, FindByName, AllPolicies, InheritsFrom, NothingShared, Validated, TakesOverArrays,
        Values, ValueOf, Lists, ItemsOf, OrEmpty;
      created := NewPolicy(name, description, enabled);
      if accepted {
        NamesStayDistinct(policies, policyName, created);
        SavedListHolds(policies, policyName, created, created);
        if NothingShared(policies) {
          SavedArrays(policies, policyName, created);
        }
        policies, currentPolicy, policyName := AllPolicies(policies, policyName, created), created, Some(name);
        server := Values(policies);
      }
    }

    method SpliceConditions(at: nat)
      requires Consistent() && !isGlobalPolicy
      modifies if currentPolicy == null then {} else {currentPolicy.conditions}
      ensures |Sent()| == |old(Sent())|
      ensures if currentPolicy == null || currentPolicy.conditions == null then Sent() == old(Sent())
              else Spliced(policies, currentPolicy.conditions, at, old(Sent()))
      ensures NothingShared(policies) ==> forall i :: 0 <= i < |policies| ==>
        Sent()[i] == if policies[i] == currentPolicy then WithoutCondition(old(Sent())[i], at) else old(Sent())[i]
    {
      hide Distinct, NamesOf, NothingShared;
      ghost var was := Values(policies);
      if currentPolicy != null && currentPolicy.conditions != null {
        currentPolicy.conditions.Splice(at);
        if NothingShared(policies) {
          ConditionSpliced(policies, currentPolicy, at, was);
        }
      }
    }

    /**
      * Deleting a condition edits the array of the object being edited; what is sent is the list. A refused
      * request leaves the edit in place. Afterwards the page is at the name the form holds.
      */
    method DeleteCondition(at: nat, formName: string, accepted: bool)
      requires Consistent() && !isGlobalPolicy
      modifies this, if currentPolicy == null then {} else {currentPolicy.conditions}
      ensures Consistent() && policies == old(policies) && globalPolicies == old(globalPolicies) && !isGlobalPolicy
      ensures currentPolicy == old(currentPolicy)
      ensures |Sent()| == |old(Sent())|
      ensures if currentPolicy == null || currentPolicy.conditions == null then Sent() == old(Sent())
              else Spliced(policies, currentPolicy.conditions, at, old(Sent()))
      ensures old(Valid()) ==> Valid() && forall i :: 0 <= i < |policies| ==>
        Sent()[i] == if policies[i] == currentPolicy then WithoutCondition(old(Sent())[i], at) else old(Sent())[i]
      ensures if accepted then server == Sent() && policyName == Some(formName)
              else server == old(server) && policyName == old(policyName)
    {
      hide Distinct, NamesOf, NothingShared, WithoutCondition, AfterSplice, ValueOf;
      SpliceConditions(at);
      if accepted {
        server := Values(policies);
        policyName := Some(formName);
      }
    }

    method SpliceProfiles(at: nat)
      requires Consistent() && !isGlobalPolicy
      modifies if currentPolicy == null then {} else {currentPolicy.profiles}
      ensures |Sent()| == |old(Sent())|
      ensures if currentPolicy == null || currentPolicy.profiles == null then Sent() == old(Sent())
              else Spliced(policies, currentPolicy.profiles, at, old(Sent()))
      ensures NothingShared(policies) ==> forall i :: 0 <= i < |policies| ==>
        Sent()[i] == if policies[i] == currentPolicy then WithoutProfile(old(Sent())[i], at) else old(Sent())[i]
    {
      hide Distinct, NamesOf, NothingShared;
      ghost var was := Values(policies);
      if currentPolicy != null && currentPolicy.profiles != null {
        currentPolicy.profiles.Splice(at);
        if NothingShared(policies) {
          ProfileSpliced(policies, currentPolicy, at, was);
        }
      }
    }

    method DeleteProfile(at: nat, formName: string, accepted: bool)
      requires Consistent() && !isGlobalPolicy
      modifies this, if currentPolicy == null then {} else {currentPolicy.profiles}
      ensures Consistent() && policies == old(policies) && globalPolicies == old(globalPolicies) && !isGlobalPolicy
      ensures currentPolicy == old(currentPolicy)
      ensures |Sent()| == |old(Sent())|
      ensures if currentPolicy == null || currentPolicy.profiles == null then Sent() == old(Sent())
              else Spliced(policies, currentPolicy.profiles, at, old(Sent()))
      ensures old(Valid()) ==> Valid() && forall i :: 0 <= i < |policies| ==>
        Sent()[i] == if policies[i] == currentPolicy then WithoutProfile(old(Sent())[i], at) else old(Sent())[i]
      ensures if accepted then server == Sent() && policyName == Some(formName)
              else server == old(server) && policyName == old(policyName)
    {
      hide Distinct, NamesOf, NothingShared, WithoutProfile, AfterSplice, ValueOf;
      SpliceProfiles(at);
      if accepted {
        server := Values(policies);
        policyName := Some(formName);
      }
    }

    /** The profiles the page shows: those of the first policy, global ones first, that the address names. */
    ghost function ShownProfiles(): seq<string>
      reads this, Lists(globalPolicies + policies)
    {
      var shown := FindByName(globalPolicies + policies, policyName);
      ShownInLists(globalPolicies + policies, policyName);
      OrEmpty(ProfilesOf(shown))
    }

    method WithProfiles(added: seq<string>) returns (created: Policy)
      requires Consistent() && !isGlobalPolicy && currentPolicy != null
      ensures fresh(created) && Supersedes(created, currentPolicy, policies)
      ensures ValueOf(created) == old(ValueOf(currentPolicy)).(profiles := Some(old(ShownProfiles()) + added))
    {
      hide Distinct, NamesOf, FindByName, NothingShared;
      ListsHold(policies, currentPolicy);
      var shown := FindByName(globalPolicies + policies, policyName);
      ShownInLists(globalPolicies + policies, policyName);
      var list := ProfilesOf(shown);
      var profiles := new NameList((if list == null then [] else list.items) + added);
      created := new Policy(currentPolicy.name, currentPolicy.description, currentPolicy.enabled, currentPolicy.conditions, profiles);
    }

    /** Adding profiles sends the list with a new object in the place of the one being edited. */
    method AddProfiles(added: seq<string>, formName: string, accepted: bool)
      requires Consistent() && !isGlobalPolicy
      modifies this
      ensures Consistent() && (old(Valid()) ==> Valid()) && globalPolicies == old(globalPolicies) && !isGlobalPolicy
      ensures !accepted || old(currentPolicy) == null ==>
        policies == old(policies) && currentPolicy == old(currentPolicy) && policyName == old(policyName) && server == old(server)
      ensures accepted && old(currentPolicy) != null ==>
        && currentPolicy != null && fresh(currentPolicy) && policyName == Some(formName) && server == Values(policies)
        && ValueOf(currentPolicy) == old(ValueOf(currentPolicy)).(profiles := Some(old(ShownProfiles()) + added))
        && |policies| == |old(policies)|
        && forall i :: 0 <= i < |policies| ==>
             policies[i] == if old(policies)[i] == old(currentPolicy) then currentPolicy else old(policies)[i]
    {
      hide Distinct, NamesOf, FindByName, NothingShared, Replaced, Supersedes, SetAt, IndexOf, OrEmpty,
        Values, ValueOf, ShownProfiles, Lists, ItemsOf;
      if currentPolicy != null {
        var created := WithProfiles(added);
        var index := IndexOf(NamesOf(policies), currentPolicy.name);
        SupersedesName(policies, created, currentPolicy);
        SetAtIndex(policies, created, currentPolicy);
        Superseded(policies, created, currentPolicy);
        if accepted {
          policies, currentPolicy := SetAt(policies, index, created), created;
          server := Values(policies);
          policyName := Some(formName);
        }
      }
    }
  }

  lemma ShownInLists(all: seq<Policy>, policyName: Option<string>)
    ensures var shown := FindByName(all, policyName);
            shown.Some? ==> shown.value.profiles in Lists(all)
  {
  }

  function SetAt(policies: seq<Policy>, index: nat, created: Policy): seq<Policy>
    requires index < |policies|
  {
    policies[..index] + [created] + policies[index + 1..]
  }

  lemma SetAtIndex(policies: seq<Policy>, created: Policy, current: Policy)
    requires Distinct(NamesOf(policies)) && current in policies && created.name == current.name
    ensures var index := IndexOf(NamesOf(policies), current.name);
            0 <= index && SetAt(policies, index, created) == Replaced(policies, created)
  {
    ReplacedHolds(policies, created, current);
    var k :| 0 <= k < |policies| && policies[k] == current;
    IndexOfDistinct(NamesOf(policies), k);
    IndexAt(policies, created, current, k);
  }

  lemma IndexAt(policies: seq<Policy>, created: Policy, current: Policy, k: nat)
    requires k < |policies| && policies[k] == current && created.name == current.name
    requires Distinct(NamesOf(policies))
    ensures SetAt(policies, k, created) == Replaced(policies, created)
  {
    forall i | 0 <= i < |policies|
      ensures policies[i].name == created.name <==> i == k
    {
      assert NamesOf(policies)[i] == policies[i].name && NamesOf(policies)[k] == policies[k].name;
    }
  }

  lemma Superseded(policies: seq<Policy>, created: Policy, current: Policy)
    requires Distinct(NamesOf(policies)) && current in policies
    requires Supersedes(created, current, policies)
    ensures var updated := Replaced(policies, created);
            && created in updated && Distinct(NamesOf(updated)) && (NothingShared(policies) ==> NothingShared(updated))
            && forall i :: 0 <= i < |policies| ==> updated[i] == if policies[i] == current then created else policies[i]
  {
    ReplacedHolds(policies, created, current);
    if NothingShared(policies) {
      SupersededApart(policies, created, current);
    }
  }

  lemma SupersedesName(policies: seq<Policy>, created: Policy, current: Policy)
    requires Supersedes(created, current, policies)
    ensures created.name == current.name
  {
  }
}
