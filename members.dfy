/** `getUniqueUserIdsFromGroups`: the members of a user's groups, one per
    `$id`, excluding the user. A JavaScript `Map` keyed by `$id` keeps each
    id at the position it was first inserted and holds the last member set
    for it. */
module GroupMembers {
  import opened SimplifyTypes
  import opened Keyed

  /** The members of `ms` with a defined id other than `userId`, in order. */
  function Eligible(ms: seq<Member>, userId: Option<string>): (r: seq<Member>)
  {
    if ms == [] then []
    else
      var m := ms[|ms| - 1];
      Eligible(ms[..|ms| - 1], userId) + (if m.id.Some? && m.id != userId then [m] else [])
  }

  /** The eligible members of one group; none when its `Members` is not an
      array. */
  function GroupEligible(g: Group, userId: Option<string>): seq<Member>
  {
    match g.members
    case Some(ms) => Eligible(ms, userId)
    case None => []
  }

  /** The eligible members of every group whose `Members` is an array. */
  function EligibleOf(groups: seq<Group>, userId: Option<string>): seq<Member>
  {
    if groups == [] then []
    else EligibleOf(groups[..|groups| - 1], userId) + GroupEligible(groups[|groups| - 1], userId)
  }

  /** The Map after setting every member of `ms` under its id: the last
      member seen with each id. */
  function Latest(ms: seq<Member>): (r: map<Option<string>, Member>)
    ensures r.Keys == KeySet(ms, IdOf)
    ensures forall id :: id in r ==> r[id].id == id
  {
    if ms == [] then map[]
    else
      var m := ms[|ms| - 1];
      KeySetAppend(ms[..|ms| - 1], [m], IdOf);
      KeySetSingleton(m, IdOf);
      assert ms == ms[..|ms| - 1] + [m];
      Latest(ms[..|ms| - 1])[m.id := m]
  }

  /** The result: one member per eligible id, in first-insertion order of
      the id, holding the last member inserted with that id. */
  function UniqueMembers(groups: seq<Group>, userId: Option<string>): seq<Member>
  {
    var e := EligibleOf(groups, userId);
    var first := Fresh({}, e, IdOf);
    FreshFacts({}, e, IdOf);
    seq(|first|, k requires 0 <= k < |first| => Latest(e)[first[k].id])
  }

  /** The Map as two parts: its entries in insertion order (the first
      member inserted under each id stands for the id's position) and the
      member currently set under each id. */
  predicate MapHolds(order: seq<Member>, seen: set<Option<string>>, values: map<Option<string>, Member>, inserted: seq<Member>)
  {
    && order == Fresh({}, inserted, IdOf)
    && seen == KeySet(inserted, IdOf)
    && values == Latest(inserted)
  }

  /** `map.set(member.$id, member)` keeps the Map's description. */
  lemma SetStep(order: seq<Member>, seen: set<Option<string>>, values: map<Option<string>, Member>,
                inserted: seq<Member>, member: Member)
    requires MapHolds(order, seen, values, inserted)
    ensures MapHolds(if member.id in seen then order else order + [member], seen + {member.id},
                     values[member.id := member], inserted + [member])
  {
    assert (inserted + [member])[..|inserted|] == inserted;
    KeySetAppend(inserted, [member], IdOf);
    KeySetSingleton(member, IdOf);
  }

  lemma EligibleStep(inserted: seq<Member>, ms: seq<Member>, m: nat, userId: Option<string>)
    requires m < |ms|
    ensures inserted + Eligible(ms[..m + 1], userId) ==
      inserted + Eligible(ms[..m], userId) + (if ms[m].id.Some? && ms[m].id != userId then [ms[m]] else [])
  {
    assert ms[..m + 1][..m] == ms[..m];
  }

  /** The inner `forEach` over one group's `Members` array: set every member
      with a defined id other than `userId`. */
  method SetMembers(ms: seq<Member>, userId: Option<string>, order0: seq<Member>, seen0: set<Option<string>>,
                    values0: map<Option<string>, Member>, ghost inserted: seq<Member>)
    returns (order: seq<Member>, seen: set<Option<string>>, values: map<Option<string>, Member>)
    requires MapHolds(order0, seen0, values0, inserted)
    ensures MapHolds(order, seen, values, inserted + Eligible(ms, userId))
  {
    order, seen, values := order0, seen0, values0;
    assert ms[..0] == [];
    assert inserted + Eligible(ms[..0], userId) == inserted;
    for m := 0 to |ms|
      invariant MapHolds(order, seen, values, inserted + Eligible(ms[..m], userId))
    {
      var member := ms[m];
      ghost var before := inserted + Eligible(ms[..m], userId);
      EligibleStep(inserted, ms, m, userId);
      if member.id.Some? && member.id != userId {
        SetStep(order, seen, values, before, member);
        if member.id !in seen {
          order := order + [member];
        }
        seen := seen + {member.id};
        values := values[member.id := member];
      } else {
        assert before + [] == before;
      }
    }
    assert ms[..|ms|] == ms;
  }

  /** The `forEach` over groups, skipping those whose `Members` is not an
      array, then `Array.from(map.values())`. */
  method GetUniqueUserIdsFromGroups(groups: seq<Group>, userId: Option<string>) returns (unique: seq<Member>)
    ensures unique == UniqueMembers(groups, userId)
  {
    var order: seq<Member> := [];
    var seen: set<Option<string>> := {};
    var values: map<Option<string>, Member> := map[];
    for g := 0 to |groups|
      invariant MapHolds(order, seen, values, EligibleOf(groups[..g], userId))
    {
      assert groups[..g + 1][..g] == groups[..g];
      if groups[g].members.Some? {
        var ms := groups[g].members.value;
        assert EligibleOf(groups[..g + 1], userId) == EligibleOf(groups[..g], userId) + Eligible(ms, userId);
        order, seen, values := SetMembers(ms, userId, order, seen, values, EligibleOf(groups[..g], userId));
      } else {
        assert EligibleOf(groups[..g + 1], userId) == EligibleOf(groups[..g], userId);
      }
    }
    assert groups[..|groups|] == groups;
    FreshFacts({}, EligibleOf(groups, userId), IdOf);
    unique := seq(|order|, k requires 0 <= k < |order| => values[order[k].id]);
  }

  lemma {:induction false} EligibleFacts(ms: seq<Member>, userId: Option<string>)
    ensures forall m :: m in Eligible(ms, userId) ==> m in ms && m.id.Some? && m.id != userId
  {
    if ms != [] {
      EligibleFacts(ms[..|ms| - 1], userId);
    }
  }

  lemma {:induction false} EligibleOfFacts(groups: seq<Group>, userId: Option<string>)
    ensures forall m :: m in EligibleOf(groups, userId) ==> m.id.Some? && m.id != userId
  {
    if groups != [] {
      EligibleOfFacts(groups[..|groups| - 1], userId);
      match groups[|groups| - 1].members {
        case None =>
        case Some(ms) => EligibleFacts(ms, userId);
      }
    }
  }

  lemma {:induction false} EligibleOfAppend(a: seq<Group>, b: seq<Group>, userId: Option<string>)
    ensures EligibleOf(a + b, userId) == EligibleOf(a, userId) + EligibleOf(b, userId)
  {
    if b == [] {
      assert a + b == a;
    } else {
      var init, g := b[..|b| - 1], b[|b| - 1];
      assert (a + b)[..|a + b| - 1] == a + init;
      assert (a + b)[|a + b| - 1] == g;
      EligibleOfAppend(a, init, userId);
      calc {
        EligibleOf(a + b, userId);
        EligibleOf(a + init, userId) + GroupEligible(g, userId);
        EligibleOf(a, userId) + EligibleOf(init, userId) + GroupEligible(g, userId);
        EligibleOf(a, userId) + (EligibleOf(init, userId) + GroupEligible(g, userId));
        EligibleOf(a, userId) + EligibleOf(b, userId);
      }
    }
  }

  /** The result has pairwise-distinct ids, never the excluded user's id nor
      an undefined one; its ids are exactly the eligible ids, and each entry
      is the last eligible member with its id. */
  lemma UniqueMembersFacts(groups: seq<Group>, userId: Option<string>)
    ensures var r := UniqueMembers(groups, userId);
      && DistinctKeys(r, IdOf)
      && (forall m :: m in r ==> m.id.Some? && m.id != userId)
      && KeySet(r, IdOf) == KeySet(EligibleOf(groups, userId), IdOf)
      && (forall k :: 0 <= k < |r| ==> r[k] == Latest(EligibleOf(groups, userId))[r[k].id])
  {
    var e := EligibleOf(groups, userId);
    var first := Fresh({}, e, IdOf);
    FreshFacts({}, e, IdOf);
    EligibleOfFacts(groups, userId);
    var r := UniqueMembers(groups, userId);
    assert forall k :: 0 <= k < |r| ==> r[k].id == first[k].id;
    assert KeySet(r, IdOf) == KeySet(first, IdOf) by {
      forall id | id in KeySet(first, IdOf) ensures id in KeySet(r, IdOf) {
        var k :| 0 <= k < |first| && first[k].id == id;
        assert r[k].id == id;
      }
    }
  }

  /** A group whose `Members` is not an array contributes nothing, wherever
      it stands. */
  lemma NonArrayGroupIgnored(before: seq<Group>, activity: seq<Expense>, after: seq<Group>, userId: Option<string>)
    ensures UniqueMembers(before + [Group(None, activity)] + after, userId) == UniqueMembers(before + after, userId)
  {
    var none := [Group(None, activity)];
    EligibleOfAppend(before + none, after, userId);
    EligibleOfAppend(before, none, userId);
    EligibleOfAppend(before, after, userId);
    assert EligibleOf(none, userId) == [] by {
      assert none[..0] == [];
    }
    assert EligibleOf(before + none, userId) == EligibleOf(before, userId);
  }
}
