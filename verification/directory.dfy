/** The team directory: lookups over the members, held in the order they
    were added (the iteration order of the store's name-keyed map). */
module Directory {
  import opened Schema
  import Sorting

  /** Names are the keys of the directory, so no two members share one. */
  predicate NamesDistinct(members: seq<TeamMember>) {
    forall i, j :: 0 <= i < j < |members| ==> members[i].name != members[j].name
  }

  function Priority(m: TeamMember): int {
    m.priority
  }

  /** `getTeamMembers`: every member, in ascending priority; members of equal
      priority stay in the order they were added. */
  function SortedTeam(members: seq<TeamMember>): (r: seq<TeamMember>)
    ensures multiset(r) == multiset(members)
    ensures Sorting.SortedByKey(r, Priority)
  {
    Sorting.SortPermutes(members, Priority);
    Sorting.SortSorted(members, Priority);
    Sorting.SortByKey(members, Priority)
  }

  lemma SortedTeamKeepsNamesDistinct(members: seq<TeamMember>)
    requires NamesDistinct(members)
    ensures NamesDistinct(SortedTeam(members))
  {
    var r := SortedTeam(members);
    forall i, j | 0 <= i < j < |r| ensures r[i].name != r[j].name {
      if r[i].name == r[j].name {
        assert r[i] in multiset(members) && r[j] in multiset(members);
        var a :| 0 <= a < |members| && members[a] == r[i];
        var b :| 0 <= b < |members| && members[b] == r[j];
        assert a == b;
        Occurrences(r, i, j);
        DistinctOnce(members, a);
        assert false;
      }
    }
  }

  /** A value at two positions is counted twice. */
  lemma Occurrences<T>(s: seq<T>, i: int, j: int)
    requires 0 <= i < j < |s| && s[i] == s[j]
    ensures multiset(s)[s[i]] >= 2
  {
    assert s == s[..j] + [s[j]] + s[j + 1..];
    assert s[i] in s[..j];
  }

  /** In a directory with distinct names each member occurs once. */
  lemma {:induction false} DistinctOnce(members: seq<TeamMember>, a: int)
    requires NamesDistinct(members) && 0 <= a < |members|
    ensures multiset(members)[members[a]] == 1
  {
    var x := members[a];
    assert members == members[..a] + [x] + members[a + 1..];
    assert x !in members[..a] && x !in members[a + 1..] by {
      forall k | 0 <= k < |members| && k != a ensures members[k] != x {
        assert members[k].name != x.name;
      }
    }
  }

  /** `getTeamMember(name)`: the member with that name, if any. */
  function FindByName(members: seq<TeamMember>, name: string): (r: Option<TeamMember>)
    ensures r.Some? ==> r.value in members && r.value.name == name
    ensures r.None? <==> forall m :: m in members ==> m.name != name
  {
    if members == [] then None
    else if members[0].name == name then Some(members[0])
    else FindByName(members[1..], name)
  }

  /** `teamMembersMap.set(m.name, m)`: a member with a new name is added at
      the end; one with an existing name replaces that entry in place. */
  function Upsert(members: seq<TeamMember>, m: TeamMember): (r: seq<TeamMember>)
    ensures FindByName(r, m.name) == Some(m)
    ensures forall x :: x in r ==> x == m || x in members
    ensures forall x :: x in members && x.name != m.name ==> x in r
    ensures (forall x :: x in members ==> x.name != m.name) ==> r == members + [m]
  {
    if members == [] then [m]
    else if members[0].name == m.name then [m] + members[1..]
    else
      assert members == [members[0]] + members[1..];
      [members[0]] + Upsert(members[1..], m)
  }

  lemma {:induction false} UpsertKeepsNamesDistinct(members: seq<TeamMember>, m: TeamMember)
    requires NamesDistinct(members)
    ensures NamesDistinct(Upsert(members, m))
  {
    if members != [] {
      var h, tail := members[0], members[1..];
      assert members == [h] + tail;
      TailNamesDistinct(h, tail);
      if h.name == m.name {
        assert Upsert(members, m) == [m] + tail;
        ConsNamesDistinct(m, tail);
      } else {
        var rest := Upsert(tail, m);
        UpsertKeepsNamesDistinct(tail, m);
        assert Upsert(members, m) == [h] + rest;
        assert forall x :: x in rest ==> x == m || x in tail;
        ConsNamesDistinct(h, rest);
      }
    }
  }

  /** Dropping the head keeps names distinct, and no later name is the head's. */
  lemma TailNamesDistinct(h: TeamMember, tail: seq<TeamMember>)
    requires NamesDistinct([h] + tail)
    ensures NamesDistinct(tail) && forall x :: x in tail ==> x.name != h.name
  {
    var s := [h] + tail;
    forall i, j | 0 <= i < j < |tail| ensures tail[i].name != tail[j].name {
      assert tail[i] == s[i + 1] && tail[j] == s[j + 1];
    }
    forall x | x in tail ensures x.name != h.name {
      var k :| 0 <= k < |tail| && tail[k] == x;
      assert s[0] == h && s[k + 1] == x;
    }
  }

  /** A head whose name no later member carries keeps names distinct. */
  lemma ConsNamesDistinct(h: TeamMember, rest: seq<TeamMember>)
    requires NamesDistinct(rest) && forall x :: x in rest ==> x.name != h.name
    ensures NamesDistinct([h] + rest)
  {
    var s := [h] + rest;
    forall i, j | 0 <= i < j < |s| ensures s[i].name != s[j].name {
      assert s[j] == rest[j - 1];
      if i > 0 { assert s[i] == rest[i - 1]; }
    }
  }

  /** `validateAccessKey`: the first member, in directory order, whose key is
      exactly `accessKey`; none when no key matches. */
  function FindByAccessKey(members: seq<TeamMember>, accessKey: string): (r: Option<TeamMember>)
    ensures r.None? <==> forall m :: m in members ==> m.accessKey != accessKey
    ensures r.Some? ==> exists k :: 0 <= k < |members| && members[k] == r.value
                          && r.value.accessKey == accessKey
                          && forall j :: 0 <= j < k ==> members[j].accessKey != accessKey
  {
    if members == [] then None
    else if members[0].accessKey == accessKey then Some(members[0])
    else
      var r := FindByAccessKey(members[1..], accessKey);
      if r.Some? then
        var k :| 0 <= k < |members[1..]| && members[1..][k] == r.value
                 && forall j :: 0 <= j < k ==> members[1..][j].accessKey != accessKey;
        assert members[k + 1] == r.value;
        r
      else r
  }

  /** The rank used to settle conflicts: the member's priority, or 999 for a
      user who is not a member or whose priority is 0 (the source's
      `priority || 999`). */
  function Rank(team: seq<TeamMember>, userId: string): (r: int)
    ensures (forall m :: m in team ==> m.name != userId) ==> r == 999
    ensures NamesDistinct(team) ==>
              forall m :: m in team && m.name == userId ==> r == (if m.priority == 0 then 999 else m.priority)
  {
    var found := FindByName(team, userId);
    if found.Some? then
      NameDetermines(team, found.value);
      if found.value.priority == 0 then 999 else found.value.priority
    else 999
  }

  lemma NameDetermines(team: seq<TeamMember>, m: TeamMember)
    requires m in team
    ensures NamesDistinct(team) ==> forall n :: n in team && n.name == m.name ==> n == m
  {
  }
}
