/**
 Consumer groups: joining, heartbeats, leaving, session expiry, rebalancing and
 the commit fence. Ghost history records every commit that ever passed the
 fence and every member that ever left, so the object invariant speaks about
 whole runs.
 */
module GroupCoordinator {

  import opened Wrappers
  import opened Assignor

  datatype Member = Member(topics: seq<string>, sessionTimeout: int, lastHeartbeat: int, assignment: seq<TopicPartition>)

  datatype Group = Group(range: bool, generation: nat, stable: bool, leader: string, members: map<string, Member>)

  /** One commit that passed the fence. */
  datatype Pass = Pass(group: string, generation: nat, target: TopicPartition, member: string)

  datatype Error = InvalidArgument | NotFound | UnknownMember | RebalanceInProgress | IllegalGeneration

  type Lookup = seq<string> -> seq<TopicPartition>

  // ---------------------------------------------------------------- member IDs

  // std::to_string
  function Decimal(n: nat): (s: string)
    ensures s != []
  {
    if n < 10 then [DigitChar(n)] else Decimal(n / 10) + [DigitChar(n % 10)]
  }

  function DigitChar(d: nat): char
    requires d < 10
  {
    ['0', '1', '2', '3', '4', '5', '6', '7', '8', '9'][d]
  }

  lemma {:induction false} DecimalInjective(m: nat, n: nat)
    requires Decimal(m) == Decimal(n)
    ensures m == n
  {
    hide DigitChar;
    var a, b := Decimal(m), Decimal(n);
    DigitsDiffer();
    assert a[|a| - 1] == DigitChar(m % 10) && b[|b| - 1] == DigitChar(n % 10);
    if m >= 10 && n >= 10 {
      assert a[..|a| - 1] == Decimal(m / 10) && b[..|b| - 1] == Decimal(n / 10);
      DecimalInjective(m / 10, n / 10);
    }
  }

  lemma DigitsDiffer()
    ensures forall c, d :: 0 <= c < 10 && 0 <= d < 10 && DigitChar(c) == DigitChar(d) ==> c == d
  {
  }

  function MemberId(group: string, counter: nat): string {
    group + "-" + Decimal(counter)
  }

  /** Within a group, IDs from different counter values differ. */
  lemma MemberIdInjective(group: string, m: nat, n: nat)
    requires MemberId(group, m) == MemberId(group, n)
    ensures m == n
  {
    hide Decimal;
    var p := |group| + 1;
    assert MemberId(group, m)[p..] == Decimal(m) && MemberId(group, n)[p..] == Decimal(n);
    DecimalInjective(m, n);
  }

  // ---------------------------------------------------------------- rebalancing

  /** No partition is in two members' assignments. */
  ghost predicate Disjoint(members: map<string, Member>) {
    forall a, b, p :: a in members && b in members && p in members[a].assignment && p in members[b].assignment ==> a == b
  }

  method Enumerate(keys: set<string>) returns (ids: seq<string>)
    ensures forall x :: x in ids <==> x in keys
  {
    var rest := keys;
    ids := [];
    while rest != {}
      invariant rest <= keys && forall x :: x in ids <==> x in keys && x !in rest
      decreases |rest|
    {
      var x :| x in rest;
      ids, rest := ids + [x], rest - {x};
    }
  }

  method AllTopics(members: map<string, Member>, ids: seq<string>) returns (topics: seq<string>)
    requires forall x :: x in ids <==> x in members
    ensures StrictlySorted(topics, StringLess)
    ensures CoversTopics(members, topics)
  {
    var all := [];
    var i := 0;
    while i < |ids|
      invariant i <= |ids|
      invariant forall t :: t in all <==> exists k :: 0 <= k < i && t in members[ids[k]].topics
    {
      all := all + members[ids[i]].topics;
      i := i + 1;
    }
    StringOrder();
    hide StringLess;
    topics := SortUnique(all, StringLess);
    forall t
      ensures t in topics <==> Subscribed(members, t)
    {
      if Subscribed(members, t) {
        var id :| id in members && t in members[id].topics;
        var k :| 0 <= k < |ids| && ids[k] == id;
      }
    }
  }

  method Lowest(ids: seq<string>) returns (least: string)
    requires ids != []
    ensures least in ids && forall x :: x in ids ==> !StringLess(x, least)
  {
    hide StringLess;
    StringOrder();
    least := ids[0];
    var i := 1;
    while i < |ids|
      invariant 1 <= i <= |ids| && least in ids && forall k :: 0 <= k < i ==> !StringLess(ids[k], least)
    {
      if StringLess(ids[i], least) {
        least := ids[i];
      }
      i := i + 1;
    }
  }

  /** Assign: every looked-up partition to exactly one of the members. */
  method AssignTo(range: bool, ids: seq<string>, partitions: seq<TopicPartition>) returns (assignment: Assignment)
    requires ids != []
    ensures HandsOut(assignment, ids, partitions) && FollowsStrategy(assignment, range, ids, partitions)
  {
    hide HandsOut, Gives, MemberList, PartitionList;
    if range {
      assignment := AssignRange(ids, partitions);
    } else {
      assignment := AssignRoundRobin(ids, partitions);
    }
  }

  // The sorted members hold the shares their strategy computes from the sorted partitions.
  ghost predicate FollowsStrategy(assignment: Assignment, range: bool, ids: seq<string>, partitions: seq<TopicPartition>) {
    forall ms, ps :: MemberList(ms, ids) && PartitionList(ps, partitions) && ms != [] ==>
      Gives(assignment, ms, SharesOf(range, ps, |ms|))
  }

  ghost function Assignments(members: map<string, Member>): Assignment {
    map id | id in members :: members[id].assignment
  }

  /** The looked-up partitions of the subscribed topics, and no others, are handed out by the group's strategy. */
  ghost predicate Distributed(g: Group, lookup: Lookup) {
    exists topics, ids ::
      && CoversTopics(g.members, topics) && (forall id :: id in ids <==> id in g.members)
      && HandsOut(Assignments(g.members), ids, lookup(topics))
      && FollowsStrategy(Assignments(g.members), g.range, ids, lookup(topics))
  }

  // Nothing about a member but its assignment differs.
  ghost predicate SameSessions(before: map<string, Member>, after: map<string, Member>) {
    && before.Keys == after.Keys
    && forall id :: id in before ==> after[id] == before[id].(assignment := after[id].assignment)
  }

  // Members on both sides differ in nothing but their assignment, and the strategy stays.
  ghost predicate KeepsSessions(before: Group, after: Group) {
    && after.range == before.range
    && forall id :: id in before.members && id in after.members ==>
         after.members[id] == before.members[id].(assignment := after.members[id].assignment)
  }

  /** RebalanceLocked: a new generation, the looked-up partitions distributed afresh, the lowest ID leading. */
  method Rebalance(group: Group, lookup: Lookup) returns (g: Group)
    ensures g.generation == group.generation + 1 && g.range == group.range
    ensures SameSessions(group.members, g.members)
    ensures group.members.Keys == {} ==> g.members == group.members && !g.stable && g.leader == ""
    ensures group.members.Keys != {} ==>
      && g.stable && Disjoint(g.members)
      && g.leader in g.members && (forall id :: id in g.members ==> !StringLess(id, g.leader))
      && Distributed(g, lookup)
  {
    hide StringLess, HandsOut, FollowsStrategy;
    if group.members.Keys == {} {
      return group.(generation := group.generation + 1, stable := false, leader := "");
    }
    var ids := Enumerate(group.members.Keys);
    var topics := AllTopics(group.members, ids);
    var partitions := lookup(topics);
    NotEmpty(group.members.Keys, ids);
    var assignment := AssignTo(group.range, ids, partitions);
    HandedOut(assignment, ids, partitions);
    var members := map id | id in group.members :: group.members[id].(assignment := assignment[id]);
    var leader := Lowest(ids);
    CoversSame(group.members, members, topics);
    assert Assignments(members) == assignment;
    g := Group(group.range, group.generation + 1, true, leader, members);
  }

  // The same, once some members have gone.
  method RebalanceWithout(group: Group, leaving: set<string>, lookup: Lookup) returns (g: Group)
    requires leaving <= group.members.Keys
    ensures g.generation == group.generation + 1 && g.members.Keys == group.members.Keys - leaving
    ensures if g.members.Keys == {} then !g.stable else g.stable && Disjoint(g.members)
    ensures KeepsSessions(group, g) && Served(g, lookup)
  {
    hide StringLess, Distributed, Disjoint;
    g := Rebalance(group.(members := group.members - leaving), lookup);
  }

  lemma NotEmpty(keys: set<string>, ids: seq<string>)
    requires keys != {} && forall x :: x in ids <==> x in keys
    ensures ids != []
  {
    var x :| x in keys;
    assert x in ids;
  }

  // The topics are exactly those some member subscribed to.
  ghost predicate CoversTopics(members: map<string, Member>, topics: seq<string>) {
    forall t :: t in topics <==> Subscribed(members, t)
  }

  ghost predicate Subscribed(members: map<string, Member>, topic: string) {
    exists id :: id in members && topic in members[id].topics
  }

  lemma CoversSame(before: map<string, Member>, after: map<string, Member>, topics: seq<string>)
    requires CoversTopics(before, topics) && SameSessions(before, after)
    ensures CoversTopics(after, topics)
  {
    forall t
      ensures Subscribed(before, t) <==> Subscribed(after, t)
    {
      assert forall id :: id in before ==> after[id].topics == before[id].topics;
    }
  }

  lemma HandedOut(assignment: Assignment, ids: seq<string>, partitions: seq<TopicPartition>)
    requires HandsOut(assignment, ids, partitions)
    ensures forall x :: x in assignment <==> x in ids
    ensures forall a, b, p :: a in assignment && b in assignment && p in assignment[a] && p in assignment[b] ==> a == b
  {
  }

  /** The lowest ID leads, and the partitions are distributed as that lookup had them. */
  ghost predicate Served(g: Group, lookup: Lookup) {
    g.members.Keys != {} ==>
      && g.leader in g.members && (forall id :: id in g.members ==> !StringLess(id, g.leader))
      && Distributed(g, lookup)
  }

  // Heartbeats and renewed joins leave all that as it is.
  lemma StillServed(before: Group, after: Group, lookup: Lookup)
    requires Served(before, lookup) && after.range == before.range && after.leader == before.leader
    requires after.members.Keys == before.members.Keys
    requires forall id :: id in before.members ==>
      after.members[id].topics == before.members[id].topics && after.members[id].assignment == before.members[id].assignment
    ensures Served(after, lookup)
  {
    hide StringLess, HandsOut, FollowsStrategy;
    if after.members.Keys != {} {
      var topics, ids :| CoversTopics(before.members, topics) && (forall id :: id in ids <==> id in before.members)
                         && HandsOut(Assignments(before.members), ids, lookup(topics))
                         && FollowsStrategy(Assignments(before.members), before.range, ids, lookup(topics));
      SameTopics(before.members, after.members, topics);
      assert Assignments(after.members) == Assignments(before.members);
      assert Distributed(after, lookup);
    }
  }

  lemma SameTopics(before: map<string, Member>, after: map<string, Member>, topics: seq<string>)
    requires CoversTopics(before, topics) && after.Keys == before.Keys
    requires forall id :: id in before ==> after[id].topics == before[id].topics
    ensures CoversTopics(after, topics)
  {
    forall t
      ensures Subscribed(before, t) <==> Subscribed(after, t)
    {
      assert forall id :: id in before ==> (t in after[id].topics <==> t in before[id].topics);
    }
  }

  ghost predicate AllServed(groups: map<string, Group>, lookups: map<string, Lookup>) {
    forall name :: name in groups ==> name in lookups && Served(groups[name], lookups[name])
  }

  // Each member's clock shows when it last joined or sent a heartbeat.
  ghost predicate AllHeard(groups: map<string, Group>, heard: map<(string, string), int>) {
    forall name, id :: name in groups && id in groups[name].members ==>
      (name, id) in heard && heard[(name, id)] == groups[name].members[id].lastHeartbeat
  }

  lemma ServedChanges(groups: map<string, Group>, lookups: map<string, Lookup>, name: string, g: Group, lookup: Lookup)
    requires AllServed(groups, lookups) && Served(g, lookup)
    ensures AllServed(groups[name := g], lookups[name := lookup])
  {
    hide Served;
  }

  lemma HeardChanges(groups: map<string, Group>, heard: map<(string, string), int>, name: string, g: Group,
                     heard': map<(string, string), int>)
    requires AllHeard(groups, heard)
    requires forall x :: x in heard && x.0 != name ==> x in heard' && heard'[x] == heard[x]
    requires forall id :: id in g.members ==> (name, id) in heard' && heard'[(name, id)] == g.members[id].lastHeartbeat
    ensures AllHeard(groups[name := g], heard')
  {
  }

  // A group that only lost members.
  lemma HeardStays(groups: map<string, Group>, heard: map<(string, string), int>, name: string, g: Group)
    requires AllHeard(groups, heard) && name in groups && g.members.Keys <= groups[name].members.Keys
    requires KeepsSessions(groups[name], g)
    ensures AllHeard(groups[name := g], heard)
  {
  }

  // ------------------------------------------------------- what every run keeps

  ghost predicate Allocated(group: string, id: string, counter: nat) {
    exists k: nat :: 1 <= k <= counter && id == MemberId(group, k)
  }

  ghost predicate GroupOk(name: string, g: Group, counter: nat, gone: set<(string, string)>) {
    && Disjoint(g.members) && (g.stable <==> g.members.Keys != {})
    && forall id :: id in g.members ==> Allocated(name, id, counter) && (name, id) !in gone
  }

  // A commit of the current generation came from a member that still holds its partition.
  ghost predicate PassOk(p: Pass, groups: map<string, Group>) {
    && p.group in groups && p.generation <= groups[p.group].generation
    && (p.generation == groups[p.group].generation ==>
          p.member in groups[p.group].members && p.target in groups[p.group].members[p.member].assignment)
  }

  predicate SameClaim(p: Pass, q: Pass) {
    p.group == q.group && p.generation == q.generation && p.target == q.target
  }

  /** The fence: in one generation, a partition is committed by at most one member. */
  ghost predicate Fenced(passes: set<Pass>) {
    forall p, q :: p in passes && q in passes && SameClaim(p, q) ==> p.member == q.member
  }

  ghost predicate CoordinatorOk(groups: map<string, Group>, counter: nat, gone: set<(string, string)>, passes: set<Pass>) {
    && (forall name :: name in groups ==> GroupOk(name, groups[name], counter, gone))
    && (forall x :: x in gone ==> Allocated(x.0, x.1, counter))
    && (forall p :: p in passes ==> PassOk(p, groups))
    && Fenced(passes)
  }

  // A group may change its assignments only together with its generation.
  ghost predicate Advances(before: Group, after: Group) {
    || before.generation < after.generation
    || (before.generation == after.generation && before.members.Keys <= after.members.Keys
        && forall id :: id in before.members ==> after.members[id].assignment == before.members[id].assignment)
  }

  lemma AllocatedGrows(group: string, id: string, m: nat, n: nat)
    requires Allocated(group, id, m) && m <= n
    ensures Allocated(group, id, n)
  {
  }

  // One group changes; the counter may grow and members may leave.
  lemma GroupChanges(groups: map<string, Group>, counter: nat, gone: set<(string, string)>, passes: set<Pass>,
                     name: string, g: Group, counter': nat, gone': set<(string, string)>)
    requires CoordinatorOk(groups, counter, gone, passes) && counter <= counter' && gone <= gone'
    requires forall x :: x in gone' - gone ==> x.0 == name && Allocated(x.0, x.1, counter')
    requires GroupOk(name, g, counter', gone') && (name in groups ==> Advances(groups[name], g))
    ensures CoordinatorOk(groups[name := g], counter', gone', passes)
  {
    hide Fenced, Disjoint, Allocated;
    var after := groups[name := g];
    forall other | other in after && other != name
      ensures GroupOk(other, after[other], counter', gone')
    {
      assert GroupOk(other, groups[other], counter, gone);
      forall id | id in groups[other].members
        ensures Allocated(other, id, counter') && (other, id) !in gone'
      {
        AllocatedGrows(other, id, counter, counter');
        assert (other, id) !in gone;
      }
    }
    forall x | x in gone'
      ensures Allocated(x.0, x.1, counter')
    {
      if x in gone {
        AllocatedGrows(x.0, x.1, counter, counter');
      } else {
        assert x in gone' - gone;
      }
    }
    forall p | p in passes
      ensures PassOk(p, after)
    {
      assert PassOk(p, groups);
    }
  }

  // A commit that passes cannot clash with an earlier one.
  lemma FenceHolds(groups: map<string, Group>, counter: nat, gone: set<(string, string)>, passes: set<Pass>, p: Pass)
    requires CoordinatorOk(groups, counter, gone, passes)
    requires p.group in groups && p.generation == groups[p.group].generation
    requires p.member in groups[p.group].members && p.target in groups[p.group].members[p.member].assignment
    ensures CoordinatorOk(groups, counter, gone, passes + {p})
  {
    var g := groups[p.group];
    assert GroupOk(p.group, g, counter, gone);
    forall q | q in passes && q.group == p.group && q.generation == p.generation && q.target == p.target
      ensures q.member == p.member
    {
      assert PassOk(q, groups);
      assert q.target in g.members[q.member].assignment && p.target in g.members[p.member].assignment;
    }
    assert PassOk(p, groups);
  }

  // A fresh ID was never a member and never left.
  lemma FreshId(groups: map<string, Group>, counter: nat, gone: set<(string, string)>, passes: set<Pass>, name: string)
    requires CoordinatorOk(groups, counter, gone, passes)
    ensures var id := MemberId(name, counter + 1);
      && (name, id) !in gone && (name in groups ==> id !in groups[name].members) && Allocated(name, id, counter + 1)
  {
    hide MemberId, PassOk, Fenced, Disjoint;
    var id := MemberId(name, counter + 1);
    if name in groups && id in groups[name].members {
      assert GroupOk(name, groups[name], counter, gone);
      NotYet(name, counter);
    }
    if (name, id) in gone {
      NotYet(name, counter);
    }
  }

  lemma NotYet(name: string, counter: nat)
    ensures !Allocated(name, MemberId(name, counter + 1), counter)
  {
    hide MemberId;
    if Allocated(name, MemberId(name, counter + 1), counter) {
      var k: nat :| 1 <= k <= counter && MemberId(name, counter + 1) == MemberId(name, k);
      MemberIdInjective(name, counter + 1, k);
    }
  }

  datatype Joined = Joined(generation: nat, memberId: string, leader: string, assignment: seq<TopicPartition>)
                  | Refused(error: Error)

  class GroupCoordinator {
    const defaultSessionTimeout: int
    var groups: map<string, Group>
    var memberCounter: nat
    ghost var gone: set<(string, string)>      // (group, member) that left or expired
    ghost var passes: set<Pass>                // commits let through the fence
    ghost var lookups: map<string, Lookup>     // what the last rebalance of each group was given
    ghost var heard: map<(string, string), int>  // when each (group, member) last joined or sent a heartbeat

    ghost predicate Valid()
      reads this
    {
      CoordinatorOk(groups, memberCounter, gone, passes) && AllServed(groups, lookups) && AllHeard(groups, heard)
    }

    /** In every reachable state the partitions of a group with members are all owned, as its last lookup had them, and its lowest ID leads. */
    lemma AllOwned(name: string)
      requires Valid() && name in groups && groups[name].members.Keys != {}
      ensures name in lookups && Distributed(groups[name], lookups[name])
      ensures groups[name].leader in groups[name].members
      ensures forall id :: id in groups[name].members ==> !StringLess(id, groups[name].leader)
    {
      hide CoordinatorOk, AllHeard, Distributed, StringLess;
      assert Served(groups[name], lookups[name]);
    }

    constructor (defaultSessionTimeout: int)
      ensures Valid() && groups == map[] && gone == {} && passes == {}
    {
      this.defaultSessionTimeout := defaultSessionTimeout;
      groups, memberCounter, gone, passes, lookups, heard := map[], 0, {}, {}, map[], map[];
    }

    ghost function Generation(name: string): nat
      reads this
    {
      if name in groups then groups[name].generation else 0
    }

    ghost function Members(name: string): set<string>
      reads this
    {
      if name in groups then groups[name].members.Keys else {}
    }

    /** Over the whole history: one committer per partition and generation, and no one who left is back. */
    lemma Fencing()
      requires Valid()
      ensures Fenced(passes)
      ensures forall name, id :: (name, id) in gone ==> id !in Members(name)
      ensures forall p :: p in passes && (p.group, p.member) in gone ==> p.generation < Generation(p.group)
    {
      forall name, id | (name, id) in gone
        ensures id !in Members(name)
      {
        assert name in groups ==> GroupOk(name, groups[name], memberCounter, gone);
      }
      forall p | p in passes && (p.group, p.member) in gone
        ensures p.generation < Generation(p.group)
      {
        assert PassOk(p, groups);
      }
    }

    method Join(name: string, memberId: string, topics: seq<string>, sessionTimeout: int, range: bool, lookup: Lookup, now: int)
      returns (r: Joined)
      requires Valid()
      modifies this`groups, this`memberCounter, this`lookups, this`heard
      ensures Valid()
      ensures r.Refused? <==> name == "" || topics == []
      ensures r.Refused? ==> r.error == InvalidArgument && groups == old(groups)
      ensures r.Joined? ==>
        && name in groups && groups == old(groups)[name := groups[name]] && r.memberId in groups[name].members
        && r.generation == groups[name].generation && r.leader == groups[name].leader
        && r.assignment == groups[name].members[r.memberId].assignment
        && groups[name].members[r.memberId].topics == topics && groups[name].members[r.memberId].lastHeartbeat == now
        && Members(name) == old(Members(name)) + {r.memberId}
        && groups[name].members[r.memberId].sessionTimeout == (if sessionTimeout > 0 then sessionTimeout else defaultSessionTimeout)
        && (if name in old(groups) then KeepsSessions(old(groups)[name].(members := old(groups)[name].members - {r.memberId}), groups[name])
            else groups[name].range == range)
      ensures r.Joined? && memberId in old(Members(name)) && memberId != "" ==>
        && r.memberId == memberId
        && Generation(name) == old(Generation(name)) + (if old(groups[name].members[memberId].topics) != topics then 1 else 0)
      ensures r.Joined? && !(memberId in old(Members(name)) && memberId != "") ==>
        && r.memberId !in old(Members(name)) && (name, r.memberId) !in gone
        && Generation(name) == old(Generation(name)) + 1
      ensures r.Joined? ==> heard == old(heard)[(name, r.memberId) := now]
      // A new member or new topics: everything is distributed afresh. Otherwise nothing is.
      ensures r.Joined? && (r.memberId !in old(Members(name)) || old(groups)[name].members[r.memberId].topics != topics) ==>
        lookups == old(lookups)[name := lookup] && Served(groups[name], lookup)
      ensures r.Joined? && r.memberId in old(Members(name)) && old(groups)[name].members[r.memberId].topics == topics ==>
        && lookups == old(lookups) && groups[name].leader == old(groups)[name].leader
        && forall id :: id in groups[name].members ==> groups[name].members[id].assignment == old(groups)[name].members[id].assignment
    {
      hide CoordinatorOk, GroupOk, Advances, Disjoint, MemberId, AllServed, AllHeard, Served;
      if name == "" || topics == [] {
        return Refused(InvalidArgument);
      }
      var group := if name in groups then groups[name] else Group(range, 0, false, "", map[]);
      var id := memberId;
      var isNew := memberId == "" || memberId !in group.members;
      if isNew {
        memberCounter := memberCounter + 1;
        id := MemberId(name, memberCounter);
      }
      Fresh(groups, old(memberCounter), gone, passes, name, group, id, isNew);
      var timeout := if sessionTimeout > 0 then sessionTimeout else defaultSessionTimeout;
      var g := Seat(group, id, isNew, topics, timeout, lookup, now);
      SeatedKeeps(groups, old(memberCounter), gone, passes, name, group, g, memberCounter, id, isNew, topics);
      if isNew || group.members[id].topics != topics {
        ServedChanges(groups, lookups, name, g, lookup);
        lookups := lookups[name := lookup];
      } else {
        Renewed(groups, lookups, name, g);
      }
      JoinHeard(groups, heard, name, group, g, id, now);
      heard := heard[(name, id) := now];
      groups := groups[name := g];
      return Joined(g.generation, id, g.leader, g.members[id].assignment);
    }

    method Heartbeat(name: string, memberId: string, generation: nat, now: int) returns (error: Option<Error>)
      requires Valid()
      modifies this`groups, this`heard
      ensures Valid()
      ensures error ==
        if name !in old(groups) then Some(NotFound)
        else if memberId !in old(groups)[name].members then Some(UnknownMember)
        else if generation != old(groups)[name].generation then Some(RebalanceInProgress)
        else None
      ensures error.Some? ==> groups == old(groups) && heard == old(heard)
      ensures error.None? ==>
        && heard == old(heard)[(name, memberId) := now]
        && var (group, member) := (old(groups)[name], old(groups)[name].members[memberId]);
           groups == old(groups)[name := group.(members := group.members[memberId := member.(lastHeartbeat := now)])]
    {
      hide CoordinatorOk, GroupOk, AllServed, AllHeard;
      if name !in groups {
        return Some(NotFound);
      }
      var group := groups[name];
      if memberId !in group.members {
        return Some(UnknownMember);
      }
      if generation != group.generation {
        return Some(RebalanceInProgress);
      }
      var g := Beat(group, memberId, now);
      BeatKeeps(groups, memberCounter, gone, passes, name, memberId, now);
      GroupChanges(groups, memberCounter, gone, passes, name, g, memberCounter, gone);
      Renewed(groups, lookups, name, g);
      JoinHeard(groups, heard, name, group, g, memberId, now);
      heard := heard[(name, memberId) := now];
      groups := groups[name := g];
      return None;
    }

    method Leave(name: string, memberId: string, lookup: Lookup) returns (error: Option<Error>)
      requires Valid()
      modifies this`groups, this`gone, this`lookups
      ensures Valid()
      ensures error ==
        if name !in old(groups) then Some(NotFound)
        else if memberId !in old(groups)[name].members then Some(UnknownMember)
        else None
      ensures error.Some? ==> groups == old(groups) && gone == old(gone) && lookups == old(lookups)
      ensures error.None? ==>
        && name in groups && groups == old(groups)[name := groups[name]] && gone == old(gone) + {(name, memberId)}
        && Members(name) == old(Members(name)) - {memberId} && Generation(name) == old(Generation(name)) + 1
        && KeepsSessions(old(groups)[name], groups[name])
        && lookups == old(lookups)[name := lookup] && Served(groups[name], lookup)
    {
      hide CoordinatorOk, GroupOk, Disjoint, Advances, AllServed, AllHeard, Distributed, StringLess;
      if name !in groups {
        return Some(NotFound);
      }
      var group := groups[name];
      if memberId !in group.members {
        return Some(UnknownMember);
      }
      var g := RebalanceWithout(group, {memberId}, lookup);
      LeaveKeeps(groups, memberCounter, gone, passes, name, {memberId}, g);
      HeardStays(groups, heard, name, g);
      ServedChanges(groups, lookups, name, g, lookup);
      lookups := lookups[name := lookup];
      groups := groups[name := g];
      assert Tagged(name, {memberId}) == {(name, memberId)};
      gone := gone + Tagged(name, {memberId});
      return None;
    }

    /** Commit's fence. A commit without a member ID is unmanaged and not fenced. */
    method CommitFence(name: string, memberId: string, generation: nat, target: TopicPartition, offset: int)
      returns (error: Option<Error>)
      requires Valid()
      modifies this`passes
      ensures Valid()
      ensures error ==
        if offset < 0 then Some(InvalidArgument)
        else if memberId == "" then None
        else if name !in groups then Some(NotFound)
        else if memberId !in groups[name].members then Some(UnknownMember)
        else if generation != groups[name].generation then Some(IllegalGeneration)
        else if target !in groups[name].members[memberId].assignment then Some(IllegalGeneration)
        else None
      ensures passes == if error.None? && memberId != ""
                        then old(passes) + {Pass(name, generation, target, memberId)} else old(passes)
    {
      hide CoordinatorOk, AllServed, AllHeard;
      if offset < 0 {
        return Some(InvalidArgument);
      }
      if memberId != "" {
        if name !in groups {
          return Some(NotFound);
        }
        var group := groups[name];
        if memberId !in group.members {
          return Some(UnknownMember);
        }
        if generation != group.generation {
          return Some(IllegalGeneration);
        }
        if target !in group.members[memberId].assignment {
          return Some(IllegalGeneration);
        }
        FenceHolds(groups, memberCounter, gone, passes, Pass(name, generation, target, memberId));
        passes := passes + {Pass(name, generation, target, memberId)};
      }
      return None;
    }

    method ExpireGroup(name: string, now: int, lookup: Lookup) returns (evicted: nat)
      requires Valid() && name in groups
      modifies this`groups, this`gone, this`lookups
      ensures Valid() && name in groups && groups == old(groups)[name := groups[name]]
      ensures Swept(old(groups)[name], groups[name], now)
      ensures if Silent(old(groups)[name], now) == {} then lookups == old(lookups)
              else lookups == old(lookups)[name := lookup] && Served(groups[name], lookup)
      ensures gone == old(gone) + Tagged(name, Silent(old(groups)[name], now)) && |gone| == |old(gone)| + evicted
    {
      hide CoordinatorOk, GroupOk, Disjoint, Advances, Silent, Swept, Served, AllServed, AllHeard, KeepsSessions;
      var group := groups[name];
      var expired := Silent(group, now);
      NothingSilent(group, now);
      NotGoneYet(groups, memberCounter, gone, passes, name, expired);
      if expired == {} {
        return 0;
      }
      var g := RebalanceWithout(group, expired, lookup);
      LeaveKeeps(groups, memberCounter, gone, passes, name, expired, g);
      SweptNow(group, g, now);
      HeardStays(groups, heard, name, g);
      ServedChanges(groups, lookups, name, g, lookup);
      lookups := lookups[name := lookup];
      groups := groups[name := g];
      gone := gone + Tagged(name, expired);
      return |expired|;
    }

    /** Every group loses exactly its silent members, and moves to a new generation if it lost any. */
    method ExpireSessions(now: int, lookup: Lookup) returns (evicted: nat)
      requires Valid()
      modifies this`groups, this`gone, this`lookups
      ensures Valid() && groups.Keys == old(groups).Keys
      // Out goes exactly who last joined or sent a heartbeat longer ago than its timeout.
      ensures forall name, id :: name in groups && id in old(groups)[name].members ==>
        (id in groups[name].members <==> now - heard[(name, id)] <= old(groups)[name].members[id].sessionTimeout)
      ensures forall name :: name in groups ==> Swept(old(groups)[name], groups[name], now)
      ensures forall name :: name in groups ==>
        groups[name] == old(groups)[name] || (name in lookups && lookups[name] == lookup && Served(groups[name], lookup))
      ensures forall x :: x in gone <==> x in old(gone) || (x.0 in old(groups) && x.1 in Silent(old(groups)[x.0], now))
      ensures |gone| == |old(gone)| + evicted
    {
      hide CoordinatorOk, Swept, Silent, Served, AllServed, AllHeard;
      evicted := 0;
      var rest := groups.Keys;
      while rest != {}
        invariant Valid() && groups.Keys == old(groups).Keys && rest <= groups.Keys
        invariant forall name :: name in rest ==> groups[name] == old(groups)[name]
        invariant forall name :: name in groups && name !in rest ==> Swept(old(groups)[name], groups[name], now)
        invariant forall x :: x in gone <==>
          x in old(gone) || (x.0 in old(groups) && x.0 !in rest && x.1 in Silent(old(groups)[x.0], now))
        invariant |gone| == |old(gone)| + evicted
        invariant forall name :: name in groups && name !in rest ==>
          groups[name] == old(groups)[name] || (name in lookups && lookups[name] == lookup && Served(groups[name], lookup))
        decreases |rest|
      {
        var name :| name in rest;
        NothingSilent(groups[name], now);
        var n := ExpireGroup(name, now, lookup);
        SweptUnchanged(old(groups)[name], groups[name], now);
        rest := rest - {name};
        evicted := evicted + n;
      }
      OutExactly(old(groups), groups, old(heard), now);
    }
  }

  ghost function Tagged(name: string, ids: set<string>): (tagged: set<(string, string)>)
    ensures forall x :: x in tagged <==> x.0 == name && x.1 in ids
  {
    set id | id in ids :: (name, id)
  }

  lemma {:induction false} TaggedSize(name: string, ids: set<string>)
    ensures |Tagged(name, ids)| == |ids|
    decreases |ids|
  {
    if ids == {} {
      assert Tagged(name, ids) == {};
    } else {
      var id :| id in ids;
      TaggedSize(name, ids - {id});
      assert Tagged(name, ids) == Tagged(name, ids - {id}) + {(name, id)};
    }
  }

  // Members have not left, so whoever leaves now is counted once.
  lemma NotGoneYet(groups: map<string, Group>, counter: nat, gone: set<(string, string)>, passes: set<Pass>,
                   name: string, ids: set<string>)
    requires CoordinatorOk(groups, counter, gone, passes) && name in groups && ids <= groups[name].members.Keys
    ensures |gone + Tagged(name, ids)| == |gone| + |ids|
  {
    hide PassOk, Fenced, Allocated, Disjoint, Tagged;
    assert GroupOk(name, groups[name], counter, gone);
    assert gone !! Tagged(name, ids);
    TaggedSize(name, ids);
  }

  function Beat(group: Group, memberId: string, now: int): Group
    requires memberId in group.members
  {
    group.(members := group.members[memberId := group.members[memberId].(lastHeartbeat := now)])
  }

  lemma BeatKeeps(groups: map<string, Group>, counter: nat, gone: set<(string, string)>, passes: set<Pass>,
                  name: string, memberId: string, now: int)
    requires CoordinatorOk(groups, counter, gone, passes) && name in groups && memberId in groups[name].members
    ensures GroupOk(name, Beat(groups[name], memberId, now), counter, gone)
    ensures Advances(groups[name], Beat(groups[name], memberId, now))
  {
    hide PassOk, Fenced, Allocated;
    var group := groups[name];
    assert GroupOk(name, group, counter, gone);
    var g := Beat(group, memberId, now);
    assert g.members.Keys == group.members.Keys;
    SameDisjoint(group.members, g.members);
  }

  // The group's members, topics and assignments are as before.
  lemma Renewed(groups: map<string, Group>, lookups: map<string, Lookup>, name: string, g: Group)
    requires AllServed(groups, lookups) && name in groups
    requires g.range == groups[name].range && g.leader == groups[name].leader && g.members.Keys == groups[name].members.Keys
    requires forall id :: id in g.members ==>
      && g.members[id].topics == groups[name].members[id].topics
      && g.members[id].assignment == groups[name].members[id].assignment
    ensures AllServed(groups[name := g], lookups)
  {
    hide Served;
    StillServed(groups[name], g, lookups[name]);
    assert lookups[name := lookups[name]] == lookups;
    ServedChanges(groups, lookups, name, g, lookups[name]);
  }

  lemma JoinHeard(groups: map<string, Group>, heard: map<(string, string), int>, name: string, group: Group, g: Group,
                  id: string, now: int)
    requires AllHeard(groups, heard) && (if name in groups then group == groups[name] else group.members == map[])
    requires g.members.Keys == group.members.Keys + {id} && g.members[id].lastHeartbeat == now
    requires forall x :: x in group.members && x != id ==> g.members[x].lastHeartbeat == group.members[x].lastHeartbeat
    ensures AllHeard(groups[name := g], heard[(name, id) := now])
  {
    HeardChanges(groups, heard, name, g, heard[(name, id) := now]);
  }

  function Silent(group: Group, now: int): set<string> {
    set id | id in group.members && now - group.members[id].lastHeartbeat > group.members[id].sessionTimeout
  }

  // What one sweep does to a group.
  ghost predicate Swept(before: Group, after: Group, now: int) {
    if Silent(before, now) == {} then after == before
    else
      && after.members.Keys == before.members.Keys - Silent(before, now) && after.generation == before.generation + 1
      && KeepsSessions(before, after)
  }

  lemma NothingSilent(group: Group, now: int)
    ensures Silent(group, now) == {} ==> Swept(group, group, now)
    ensures Silent(group, now) <= group.members.Keys
  {
  }

  lemma SweptUnchanged(before: Group, after: Group, now: int)
    requires Swept(before, after, now)
    ensures Silent(before, now) == {} ==> after == before
  {
  }

  lemma OutExactly(before: map<string, Group>, after: map<string, Group>, heard: map<(string, string), int>, now: int)
    requires AllHeard(before, heard) && after.Keys == before.Keys
    requires forall name :: name in after ==> Swept(before[name], after[name], now)
    ensures forall name, id :: name in after && id in before[name].members ==>
      && (name, id) in heard
      && (id in after[name].members <==> now - heard[(name, id)] <= before[name].members[id].sessionTimeout)
  {
    forall name, id | name in after && id in before[name].members
      ensures (name, id) in heard
      ensures id in after[name].members <==> now - heard[(name, id)] <= before[name].members[id].sessionTimeout
    {
      assert Swept(before[name], after[name], now);
      assert id in Silent(before[name], now) <==>
             now - before[name].members[id].lastHeartbeat > before[name].members[id].sessionTimeout;
    }
  }

  lemma SweptNow(before: Group, after: Group, now: int)
    requires after.members.Keys == before.members.Keys - Silent(before, now) && after.generation == before.generation + 1
    requires Silent(before, now) != {} && KeepsSessions(before, after)
    ensures Swept(before, after, now)
  {
  }

  // Members that leave are gone for good; the rest move to a new generation.
  lemma LeaveKeeps(groups: map<string, Group>, counter: nat, gone: set<(string, string)>, passes: set<Pass>,
                   name: string, leaving: set<string>, g: Group)
    requires CoordinatorOk(groups, counter, gone, passes) && name in groups && leaving <= groups[name].members.Keys
    requires g.generation == groups[name].generation + 1 && g.members.Keys == groups[name].members.Keys - leaving
    requires if g.members.Keys == {} then !g.stable else g.stable && Disjoint(g.members)
    ensures CoordinatorOk(groups[name := g], counter, gone + Tagged(name, leaving), passes)
  {
    hide PassOk, Fenced, Allocated, Disjoint;
    var gone' := gone + Tagged(name, leaving);
    assert GroupOk(name, groups[name], counter, gone);
    NoMembers(g.members);
    GroupChanges(groups, counter, gone, passes, name, g, counter, gone');
  }

  lemma NoMembers(members: map<string, Member>)
    ensures members.Keys == {} ==> Disjoint(members)
  {
  }

  lemma Fresh(groups: map<string, Group>, counter: nat, gone: set<(string, string)>, passes: set<Pass>, name: string,
              group: Group, id: string, isNew: bool)
    requires CoordinatorOk(groups, counter, gone, passes)
    requires if name in groups then group == groups[name] else group.members == map[]
    requires isNew ==> id == MemberId(name, counter + 1)
    ensures isNew ==> id !in group.members && (name, id) !in gone
    ensures name in groups ==> (group.stable <==> group.members.Keys != {})
  {
    hide MemberId;
    FreshId(groups, counter, gone, passes, name);
    if name in groups {
      assert GroupOk(name, group, counter, gone);
    }
  }

  // A join's effect on its group; a rebalance only when the group's shape changed.
  ghost predicate SeatedIn(group: Group, id: string, isNew: bool, topics: seq<string>, g: Group)
    requires isNew || id in group.members
  {
    && g.members.Keys == group.members.Keys + {id} && g.members[id].topics == topics
    && KeepsSessions(group.(members := group.members - {id}), g)
    && if isNew || group.members[id].topics != topics || !group.stable
       then g.generation == group.generation + 1 && g.stable && Disjoint(g.members)
       else g.generation == group.generation && g.stable == group.stable && g.leader == group.leader
            && forall x :: x in group.members ==> g.members[x].assignment == group.members[x].assignment
  }

  method Seat(group: Group, id: string, isNew: bool, topics: seq<string>, timeout: int, lookup: Lookup, now: int)
    returns (g: Group)
    requires isNew <==> id !in group.members
    ensures SeatedIn(group, id, isNew, topics, g) && g.range == group.range
    ensures g.members[id].lastHeartbeat == now && g.members[id].sessionTimeout == timeout
    ensures isNew || group.members[id].topics != topics || !group.stable ==> Served(g, lookup)
    ensures !(isNew || group.members[id].topics != topics || !group.stable) ==>
      forall x :: x in group.members ==> g.members[x].topics == group.members[x].topics
  {
    hide StringLess, Distributed, Disjoint;
    var member := if isNew then Member([], 0, 0, []) else group.members[id];
    var changed := member.topics != topics;
    g := group.(members := group.members[id := Member(topics, timeout, now, member.assignment)]);
    if isNew || changed || !group.stable {
      g := Rebalance(g, lookup);
    }
  }

  lemma Seated(groups: map<string, Group>, counter: nat, gone: set<(string, string)>, passes: set<Pass>, name: string,
               group: Group, g: Group, counter': nat, id: string, isNew: bool)
    requires CoordinatorOk(groups, counter, gone, passes)
    requires if name in groups then group == groups[name] else group.members == map[] && !group.stable && group.generation == 0
    requires if isNew then counter' == counter + 1 && id == MemberId(name, counter') else counter' == counter && id in group.members
    requires exists topics :: SeatedIn(group, id, isNew, topics, g)
    ensures GroupOk(name, g, counter', gone) && (name in groups ==> Advances(groups[name], g))
  {
    hide MemberId, PassOk, Fenced;
    FreshId(groups, counter, gone, passes, name);
    if name in groups {
      assert GroupOk(name, group, counter, gone);
    }
    forall x | x in g.members
      ensures Allocated(name, x, counter') && (name, x) !in gone
    {
      if x in group.members {
        AllocatedGrows(name, x, counter, counter');
      }
    }
    if g.generation == group.generation {
      assert g.members.Keys == group.members.Keys;
      SameDisjoint(group.members, g.members);
    }
  }

  lemma SeatedKeeps(groups: map<string, Group>, counter: nat, gone: set<(string, string)>, passes: set<Pass>, name: string,
                    group: Group, g: Group, counter': nat, id: string, isNew: bool, topics: seq<string>)
    requires CoordinatorOk(groups, counter, gone, passes)
    requires if name in groups then group == groups[name] else group.members == map[] && !group.stable && group.generation == 0
    requires if isNew then counter' == counter + 1 && id == MemberId(name, counter') else counter' == counter && id in group.members
    requires SeatedIn(group, id, isNew, topics, g)
    ensures CoordinatorOk(groups[name := g], counter', gone, passes)
  {
    hide CoordinatorOk, SeatedIn, GroupOk, Advances;
    Seated(groups, counter, gone, passes, name, group, g, counter', id, isNew);
    GroupChanges(groups, counter, gone, passes, name, g, counter', gone);
  }

  lemma SameDisjoint(before: map<string, Member>, after: map<string, Member>)
    requires Disjoint(before) && before.Keys == after.Keys
    requires forall x :: x in before ==> after[x].assignment == before[x].assignment
    ensures Disjoint(after)
  {
    forall a, b, p | a in after && b in after && p in after[a].assignment && p in after[b].assignment
      ensures a == b
    {
      assert p in before[a].assignment && p in before[b].assignment;
    }
  }
}
