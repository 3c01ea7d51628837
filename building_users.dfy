/** The users-of-a-building panel of the admin pages
    (frontend/src/hooks/data/useBuildingUsers.js): the assigned users, the
    users picked to be added, and the two updates it sends, each of which
    replaces the building's whole user list. */
module BuildingUsers {
  import opened Common
  import opened ApiClient
  import Text

  datatype Member = Member(id: nat, username: string)

  function Ids(users: seq<Member>): (ids: seq<nat>)
    ensures |ids| == |users|
    ensures forall i :: 0 <= i < |users| ==> ids[i] == users[i].id
  {
    if users == [] then [] else [users[0].id] + Ids(users[1..])
  }

  /** The `user_ids` sent when users are added: everyone assigned, then the
      picked ones. */
  function AssignPayload(members: seq<Member>, picked: seq<nat>): (ids: seq<nat>)
    ensures |ids| == |members| + |picked|
    ensures forall i :: 0 <= i < |members| ==> ids[i] == members[i].id
    ensures ids[|members|..] == picked
    ensures forall u :: u in members ==> u.id in ids
    ensures forall p :: p in picked ==> p in ids
    ensures forall x :: x in ids ==> x in picked || exists u :: u in members && u.id == x
  {
    Ids(members) + picked
  }

  /** The `user_ids` sent when one user is removed: every assigned user
      except that one. */
  function RemovePayload(members: seq<Member>, userId: nat): (ids: seq<nat>)
    ensures userId !in ids
    ensures forall u :: u in members && u.id != userId ==> u.id in ids
    ensures forall x :: x in ids ==> exists u :: u in members && u.id == x
    ensures |ids| == Count(members, Stays(userId))
  {
    var kept := Filter(members, Stays(userId));
    assert forall u :: u in members && u.id != userId ==> u in kept by {
      forall u | u in members && u.id != userId ensures u in kept {
        var i :| 0 <= i < |members| && members[i] == u;
        assert Stays(userId)(members[i]);
      }
    }
    Ids(kept)
  }

  /** The members other than `userId`, as a filter. */
  function Stays(userId: nat): Member -> bool {
    (u: Member) => u.id != userId
  }

  /** The removal payload member by member: the assigned users' ids in
      their order, with `userId` skipped wherever it occurs. */
  lemma RemovePayloadStep(m: Member, rest: seq<Member>, userId: nat)
    ensures RemovePayload([], userId) == []
    ensures RemovePayload([m] + rest, userId) ==
      (if m.id == userId then [] else [m.id]) + RemovePayload(rest, userId)
  {
    var ms := [m] + rest;
    assert ms[1..] == rest;
    FilterCons(ms, Stays(userId));
  }

  /** A pick of someone already assigned sends that id twice. */
  lemma AssignPayloadRepeats(members: seq<Member>, p: nat)
    requires exists u :: u in members && u.id == p
    ensures multiset(AssignPayload(members, [p]))[p] >= 2
  {
    var u :| u in members && u.id == p;
    var i :| 0 <= i < |members| && members[i] == u;
    var ids := Ids(members);
    assert ids[i] == p;
    assert multiset(ids)[p] >= 1;
    assert AssignPayload(members, [p]) == ids + [p];
  }

  class Panel {
    const buildingId: nat
    var members: seq<Member>
    var picked: seq<nat>
    var dialogOpen: bool
    /** The `PUT /buildings/{id}/update_users/` calls, by their `user_ids`. */
    var puts: seq<seq<nat>>

    constructor (buildingId: nat)
      ensures this.buildingId == buildingId
      ensures members == [] && picked == [] && !dialogOpen && puts == []
    {
      this.buildingId := buildingId;
      members := [];
      picked := [];
      dialogOpen := false;
      puts := [];
    }

    /** `assignUsers`: nothing happens while nobody is picked; otherwise the
        whole list is sent, the list is fetched again (`refetch`) when the
        update succeeded, and the dialog closes with the pick cleared. */
    method AssignUsers(put: Result<(), ApiError>, refetch: Result<seq<Member>, ApiError>)
      modifies this`members, this`picked, this`dialogOpen, this`puts
      ensures old(picked) == [] ==>
        members == old(members) && picked == [] && dialogOpen == old(dialogOpen) && puts == old(puts)
      ensures old(picked) != [] ==>
        puts == old(puts) + [AssignPayload(old(members), old(picked))]
        && picked == [] && !dialogOpen
        && members == (if put.Ok? && refetch.Ok? then refetch.value else old(members))
    {
      if picked == [] {
        return;
      }
      puts := puts + [AssignPayload(members, picked)];
      if put.Ok? && refetch.Ok? {
        members := refetch.value;
      }
      dialogOpen := false;
      picked := [];
    }

    /** `removeUser`: sends every assigned user but `userId`, and fetches the
        list again when the update succeeded. */
    method RemoveUser(userId: nat, put: Result<(), ApiError>, refetch: Result<seq<Member>, ApiError>)
      modifies this`members, this`puts
      ensures puts == old(puts) + [RemovePayload(old(members), userId)]
      ensures members == (if put.Ok? && refetch.Ok? then refetch.value else old(members))
    {
      puts := puts + [RemovePayload(members, userId)];
      if put.Ok? && refetch.Ok? {
        members := refetch.value;
      }
    }
  }
}
