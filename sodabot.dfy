/** The bot's in-memory state as the source keeps it: every lobby is one
    mutable record, shared by reference between the registry of posted lobby
    messages, the finalise view that built it and the handlers that change it
    in place. Each handler method is proved against its step function in
    `Lifecycle`, so everything proved there about the values holds of the
    objects. Discord calls are reduced to the replies and notices they would
    carry; whether `fetch_message` succeeded is an input. */
module Sodabot {
  import opened Wrappers
  import opened PyText
  import opened Embed
  import opened Lifecycle

  /** One lobby dict. */
  class Lobby {
    var hostId: nat
    var hostName: string
    var title: string
    var capacity: int
    var members: seq<Member>
    var status: Status
    var mapName: string
    var startTime: string

    /** The record's current value. */
    function State(): LobbyState
      reads this
    {
      LobbyState(hostId, hostName, title, capacity, members, status, mapName, startTime)
    }

    ghost predicate Valid()
      reads this
    {
      Inv(State())
    }

    /** The dict literal of `CreateLobbyModal.on_submit`. */
    constructor (hostId: nat, hostName: string, title: string, capacity: int)
      requires MinCapacity <= capacity <= MaxCapacity
      ensures Valid()
      ensures State() == Created(hostId, hostName, title, capacity)
    {
      this.hostId := hostId;
      this.hostName := hostName;
      this.title := title;
      this.capacity := capacity;
      this.members := [];
      this.status := Open;
      this.mapName := Unset;
      this.startTime := Unset;
    }

    /** `is_host`. */
    predicate IsHost(actor: nat)
      reads this
    {
      actor == hostId
    }

    /** `MapSelectSimple.callback`: store the picked map. */
    method PickMap(choice: string)
      requires Valid() && choice in Maps
      modifies this
      ensures Valid()
      ensures State() == old(State()).(mapName := choice)
    {
      mapName := choice;
    }

    /** `HourSelectSimple.callback`: store the picked hour as "HH:00". */
    method PickHour(hour: nat)
      requires Valid() && hour < 24
      modifies this
      ensures Valid()
      ensures State() == old(State()).(startTime := HourValue(hour))
    {
      startTime := HourValue(hour);
      assert IsHourValue(startTime);
    }

    /** Append the member, then, when the lobby message could be fetched,
        close a full lobby and announce it. */
    method Admit(uid: nat, info: Info, fetchOk: bool) returns (announcement: Option<string>)
      requires Valid() && JoinRefusal(State(), uid) == None
      modifies this
      ensures Valid()
      ensures State() == Lifecycle.Admit(old(State()), uid, info, fetchOk)
      ensures announcement == Announcement(State(), fetchOk)
    {
      ghost var before := State();
      members := members + [Member(uid, info)];
      announcement := None;
      if fetchOk {
        if |members| >= capacity {
          status := Closed;
        }
        if status == Closed {
          announcement := Some(CompletionNotice + Participants(members));
        }
      }
      AdmitAppends(before, uid, info, fetchOk);
    }

    /** `LobbyView.join_button` once the lobby is found. */
    method Join(uid: nat, fetchOk: bool) returns (reply: Reply)
      requires Valid()
      modifies this
      ensures Valid()
      ensures Step(State(), reply) == PressJoin(old(State()), uid, fetchOk)
    {
      if status != Open {
        return Refused(NotOpen);
      }
      if uid in Uids(members) {
        return Refused(AlreadyJoined);
      }
      if |members| >= capacity {
        return Refused(Full);
      }
      if mapName != Rift {
        var announcement := Admit(uid, AnyInfo, fetchOk);
        reply := Joined(announcement);
      } else {
        reply := RolePrompt;
      }
    }

    /** `JoinSelectionView.confirm` once the lobby is found: the same checks
        again, then the member with the picked tier and positions. */
    method ConfirmJoin(uid: nat, tier: Option<string>, positions: Option<seq<string>>, fetchOk: bool) returns (reply: Reply)
      requires Valid()
      modifies this
      ensures Valid()
      ensures Step(State(), reply) == Lifecycle.ConfirmJoin(old(State()), uid, tier, positions, fetchOk)
    {
      if status != Open {
        return Refused(NotOpen);
      }
      if uid in Uids(members) {
        return Refused(AlreadyJoined);
      }
      if |members| >= capacity {
        return Refused(Full);
      }
      var announcement := Admit(uid, RiftInfo(tier, positions), fetchOk);
      reply := Joined(announcement);
    }

    /** `LobbyView.leave_button` once the lobby is found. */
    method Leave(uid: nat) returns (reply: Reply)
      requires Valid()
      modifies this
      ensures Valid()
      ensures Step(State(), reply) == PressLeave(old(State()), uid)
    {
      if status != Open {
        return Refused(NotOpen);
      }
      if uid !in Uids(members) {
        return Refused(NotMember);
      }
      RemoveKeepsDistinct(members, uid);
      members := RemoveUid(members, uid);
      reply := Left;
    }

    /** `LobbyView.close_button` once the lobby is found. */
    method Close(actor: nat) returns (reply: Reply)
      requires Valid()
      modifies this
      ensures Valid()
      ensures Step(State(), reply) == PressClose(old(State()), actor)
    {
      if !IsHost(actor) {
        return Refused(NotHost);
      }
      if status != Open {
        return Refused(NotOpen);
      }
      status := Closed;
      reply := ClosedByHost;
    }

    /** `LobbyView.start_button` once the lobby is found. */
    method Start(actor: nat) returns (reply: Reply)
      requires Valid()
      modifies this
      ensures Valid()
      ensures Step(State(), reply) == PressStart(old(State()), actor)
    {
      if !IsHost(actor) {
        return Refused(NotHost);
      }
      if status == Started {
        return Refused(AlreadyStarted);
      }
      status := Started;
      reply := StartedByHost;
    }

    /** `LobbyView.cancel_button` once the lobby is found, up to the removal
        from the registry. */
    method Cancel(actor: nat) returns (reply: Reply)
      requires Valid()
      modifies this
      ensures Valid()
      ensures Step(State(), reply) == PressCancel(old(State()), actor)
    {
      if !IsHost(actor) {
        return Refused(NotHost);
      }
      var notice := CancelText(members);
      status := Cancelled;
      reply := CancelledByHost(notice);
    }
  }

  /** What the "생성" button of the finalise view answers. */
  datatype FinalizeReply = MissingSelection | AlreadyPosted | Posted(buttons: Buttons)

  /** `CreateLobbyModal.on_submit`: the capacity field is checked, then a fresh
      lobby is built for the finalise view (it is not registered yet). */
  method SubmitCreateForm(title: string, capacityText: string, hostId: nat, hostName: string)
    returns (r: Result<Lobby, CreateError>)
    ensures ValidateCapacity(capacityText).Failure? ==> r == Failure(ValidateCapacity(capacityText).error)
    ensures ValidateCapacity(capacityText).Success? ==>
      && r.Success? && fresh(r.value) && r.value.Valid()
      && r.value.State() == Created(hostId, hostName, title, ValidateCapacity(capacityText).value)
  {
    var parsed := ParseInt(capacityText);
    if parsed.None? {
      return Failure(NotNumeric);
    }
    var capacity := parsed.value;
    if capacity < MinCapacity || capacity > MaxCapacity {
      return Failure(OutOfRange);
    }
    var lobby := new Lobby(hostId, hostName, title, capacity);
    r := Success(lobby);
  }

  /** The global `lobbies` dict: lobby message id to lobby. */
  class Registry {
    var lobbies: map<nat, Lobby>

    ghost predicate Valid()
      reads this, lobbies.Values
    {
      forall id :: id in lobbies ==> lobbies[id].Valid()
    }

    /** What cancelling is meant to achieve: every lobby is posted under one
        message id only, and no cancelled lobby can still be reached. */
    ghost predicate Sound()
      reads this, lobbies.Values
    {
      && Valid()
      && (forall i, j :: i in lobbies && j in lobbies && lobbies[i] == lobbies[j] ==> i == j)
      && (forall id :: id in lobbies ==> lobbies[id].status != Cancelled)
    }

    constructor ()
      ensures Sound() && lobbies == map[]
    {
      lobbies := map[];
    }

    /** `FinalizeLobbyView.confirm`: refuse until both map and start time are
        picked; otherwise register the lobby under the id of the message just
        posted, with every button enabled. */
    method Finalize(draft: Lobby, messageId: nat) returns (reply: FinalizeReply)
      requires Valid() && draft.Valid()
      modifies this
      ensures Valid()
      ensures reply == MissingSelection <==> !Ready(draft.State())
      ensures reply == MissingSelection ==> lobbies == old(lobbies)
      ensures reply != MissingSelection ==> lobbies == old(lobbies)[messageId := draft] && reply == Posted(AllEnabled)
    {
      if draft.mapName == Unset || draft.startTime == Unset {
        return MissingSelection;
      }
      lobbies := lobbies[messageId := draft];
      reply := Posted(AllEnabled);
    }

    /** `Finalize` made one-shot: a draft that is already registered, or is no
        longer open because it was posted and then cancelled, is not posted
        again. */
    method FinalizeOnce(draft: Lobby, messageId: nat) returns (reply: FinalizeReply)
      requires Sound() && draft.Valid()
      modifies this
      ensures Sound()
      ensures reply == MissingSelection <==> !Ready(draft.State())
      ensures reply == AlreadyPosted <==> Ready(draft.State()) && (draft in old(lobbies).Values || draft.status != Open)
      ensures reply != MissingSelection && reply != AlreadyPosted ==>
        lobbies == old(lobbies)[messageId := draft] && reply == Posted(AllEnabled)
      ensures reply == MissingSelection || reply == AlreadyPosted ==> lobbies == old(lobbies)
    {
      if draft.mapName == Unset || draft.startTime == Unset {
        return MissingSelection;
      }
      if draft in lobbies.Values || draft.status != Open {
        return AlreadyPosted;
      }
      lobbies := lobbies[messageId := draft];
      reply := Posted(AllEnabled);
    }

    /** `LobbyView.join_button`. */
    method Join(id: nat, uid: nat, fetchOk: bool) returns (reply: Reply)
      requires Valid()
      modifies if id in lobbies then {lobbies[id]} else {}
      ensures Valid() && lobbies == old(lobbies)
      ensures old(Sound()) ==> Sound()
      ensures id !in lobbies ==> reply == Refused(NotFound)
      ensures id in lobbies ==> Step(lobbies[id].State(), reply) == PressJoin(old(lobbies[id].State()), uid, fetchOk)
    {
      if id !in lobbies {
        return Refused(NotFound);
      }
      reply := lobbies[id].Join(uid, fetchOk);
    }

    /** `JoinSelectionView.confirm`. */
    method ConfirmJoin(id: nat, uid: nat, tier: Option<string>, positions: Option<seq<string>>, fetchOk: bool)
      returns (reply: Reply)
      requires Valid()
      modifies if id in lobbies then {lobbies[id]} else {}
      ensures Valid() && lobbies == old(lobbies)
      ensures old(Sound()) ==> Sound()
      ensures id !in lobbies ==> reply == Refused(NotFound)
      ensures id in lobbies ==>
        Step(lobbies[id].State(), reply) == Lifecycle.ConfirmJoin(old(lobbies[id].State()), uid, tier, positions, fetchOk)
    {
      if id !in lobbies {
        return Refused(NotFound);
      }
      reply := lobbies[id].ConfirmJoin(uid, tier, positions, fetchOk);
    }

    /** `LobbyView.leave_button`. */
    method Leave(id: nat, uid: nat) returns (reply: Reply)
      requires Valid()
      modifies if id in lobbies then {lobbies[id]} else {}
      ensures Valid() && lobbies == old(lobbies)
      ensures old(Sound()) ==> Sound()
      ensures id !in lobbies ==> reply == Refused(NotFound)
      ensures id in lobbies ==> Step(lobbies[id].State(), reply) == PressLeave(old(lobbies[id].State()), uid)
    {
      if id !in lobbies {
        return Refused(NotFound);
      }
      reply := lobbies[id].Leave(uid);
    }

    /** `LobbyView.close_button`. */
    method Close(id: nat, actor: nat) returns (reply: Reply)
      requires Valid()
      modifies if id in lobbies then {lobbies[id]} else {}
      ensures Valid() && lobbies == old(lobbies)
      ensures old(Sound()) ==> Sound()
      ensures id !in lobbies ==> reply == Refused(NotFound)
      ensures id in lobbies ==> Step(lobbies[id].State(), reply) == PressClose(old(lobbies[id].State()), actor)
    {
      if id !in lobbies {
        return Refused(NotFound);
      }
      reply := lobbies[id].Close(actor);
    }

    /** `LobbyView.start_button`. */
    method Start(id: nat, actor: nat) returns (reply: Reply)
      requires Valid()
      modifies if id in lobbies then {lobbies[id]} else {}
      ensures Valid() && lobbies == old(lobbies)
      ensures old(Sound()) ==> Sound()
      ensures id !in lobbies ==> reply == Refused(NotFound)
      ensures id in lobbies ==> Step(lobbies[id].State(), reply) == PressStart(old(lobbies[id].State()), actor)
    {
      if id !in lobbies {
        return Refused(NotFound);
      }
      reply := lobbies[id].Start(actor);
    }

    /** `LobbyView.cancel_button`: the host's cancel marks the lobby cancelled
        and drops its id from the registry, so every later action on that id
        is answered "not found". */
    method Cancel(id: nat, actor: nat) returns (reply: Reply)
      requires Valid()
      modifies this, if id in lobbies then {lobbies[id]} else {}
      ensures Valid()
      ensures id !in old(lobbies) ==> reply == Refused(NotFound) && lobbies == old(lobbies)
      ensures id in old(lobbies) ==>
        Step(old(lobbies)[id].State(), reply) == PressCancel(old(lobbies[id].State()), actor)
      ensures reply.CancelledByHost? ==> lobbies == old(lobbies) - {id}
      ensures !reply.CancelledByHost? ==> lobbies == old(lobbies)
      ensures old(Sound()) ==> Sound()
      ensures id in old(lobbies) && old(Sound()) && reply.CancelledByHost? ==> old(lobbies)[id] !in lobbies.Values
    {
      if id !in lobbies {
        return Refused(NotFound);
      }
      var lobby := lobbies[id];
      reply := lobby.Cancel(actor);
      if reply.CancelledByHost? {
        lobbies := lobbies - {id};
      }
    }

    /** `LobbyView.refresh_message`: nothing for an unknown id, otherwise the
        button flags for the lobby's status. */
    method Refresh(id: nat) returns (buttons: Option<Buttons>)
      ensures id !in lobbies ==> buttons == None
      ensures id in lobbies ==> buttons == Some(ButtonsFor(lobbies[id].status))
    {
      if id !in lobbies {
        return None;
      }
      buttons := Some(ButtonsFor(lobbies[id].status));
    }
  }

  /** A capacity-2 lobby on a non-Rift map, posted as message 100: two joins
      fill and close it, and a third is refused because the lobby is no longer
      open (the status check comes before the capacity check). */
  method CapacityTwoScenario() {
    var registry := new Registry();
    var lobby := new Lobby(7, "host", "내전", 2);
    lobby.PickMap(Maps[1]);
    lobby.PickHour(21);
    var posted := registry.Finalize(lobby, 100);
    assert posted == Posted(AllEnabled) && registry.lobbies[100] == lobby;
    JoinUntilFull(registry, 100);
  }

  /** Two newcomers fill a posted, empty capacity-2 lobby on a non-Rift map;
      a third is turned away. */
  method JoinUntilFull(registry: Registry, id: nat)
    requires registry.Valid() && id in registry.lobbies
    requires registry.lobbies[id].status == Open && registry.lobbies[id].members == []
    requires registry.lobbies[id].capacity == 2 && registry.lobbies[id].mapName != Rift
    modifies registry.lobbies[id]
    ensures registry.Valid()
    ensures registry.lobbies[id].status == Closed && |registry.lobbies[id].members| == 2
  {
    var lobby := registry.lobbies[id];
    var a := JoinNewcomer(registry, id, 1);
    assert a == Joined(None) && |lobby.members| == 1 && lobby.status == Open;
    var b := JoinNewcomer(registry, id, 2);
    assert lobby.status == Closed && |lobby.members| == 2 && b.Joined? && b.announcement.Some?;
    var c := registry.Join(id, 3, true);
    assert c == Refused(NotOpen) && |lobby.members| == 2;
  }

  /** A newcomer's join press on a registered non-Rift lobby with room, with
      the lobby message fetched. */
  method JoinNewcomer(registry: Registry, id: nat, uid: nat) returns (reply: Reply)
    requires registry.Valid() && id in registry.lobbies
    requires JoinRefusal(registry.lobbies[id].State(), uid) == None && registry.lobbies[id].mapName != Rift
    modifies registry.lobbies[id]
    ensures registry.Valid()
    ensures registry.lobbies[id].State() == Lifecycle.Admit(old(registry.lobbies[id].State()), uid, AnyInfo, true)
    ensures reply == Joined(Announcement(registry.lobbies[id].State(), true))
  {
    reply := registry.Join(id, uid, true);
  }

  /** The host cancels a full lobby: it is marked cancelled with both members
      kept, and its id then answers "not found". */
  method CancelScenario() {
    var registry := new Registry();
    var lobby := new Lobby(7, "host", "내전", 2);
    lobby.PickMap(Maps[1]);
    lobby.PickHour(21);
    var posted := registry.Finalize(lobby, 100);
    assert registry.lobbies[100] == lobby;
    JoinUntilFull(registry, 100);
    CancelFull(registry, 100);
  }

  /** The host's cancel of a registered lobby with two members. */
  method CancelFull(registry: Registry, id: nat)
    requires registry.Valid() && id in registry.lobbies && |registry.lobbies[id].members| == 2
    modifies registry, registry.lobbies[id]
  {
    var lobby := registry.lobbies[id];
    ghost var s0 := lobby.State();
    var cancel := registry.Cancel(id, lobby.hostId);
    assert PressCancel(s0, s0.hostId).reply.CancelledByHost?;
    assert cancel.CancelledByHost? && lobby.status == Cancelled && |lobby.members| == 2;
    assert id !in registry.lobbies;
    var late := registry.Join(id, 3, true);
    assert late == Refused(NotFound);
  }

  /** Pressing the finalise view's "생성" twice registers one lobby under two
      message ids. */
  method DoubleConfirmScenario() {
    var registry := new Registry();
    var lobby := new Lobby(7, "host", "내전", 5);
    lobby.PickMap(Rift);
    lobby.PickHour(20);
    var first := registry.Finalize(lobby, 100);
    assert registry.lobbies[100] == lobby;
    var second := registry.Finalize(lobby, 101);
    assert first == second == Posted(AllEnabled);
    assert registry.lobbies[100] == registry.lobbies[101] == lobby;
    CancelThroughAlias(registry, 100, 101);
  }

  /** When two message ids share one lobby, the host's cancel through the first
      leaves the second live, and through it the cancelled lobby is started. */
  method CancelThroughAlias(registry: Registry, id: nat, alias: nat)
    requires registry.Valid() && id in registry.lobbies && alias in registry.lobbies
    requires id != alias && registry.lobbies[id] == registry.lobbies[alias]
    modifies registry, registry.lobbies[id]
  {
    var lobby := registry.lobbies[id];
    ghost var s0 := lobby.State();
    var cancel := registry.Cancel(id, lobby.hostId);
    assert PressCancel(s0, s0.hostId).reply.CancelledByHost?;
    assert cancel.CancelledByHost? && lobby.status == Cancelled;
    assert registry.lobbies[alias] == lobby;

    ghost var s1 := lobby.State();
    var start := registry.Start(alias, lobby.hostId);
    assert PressStart(s1, s1.hostId) == Step(s1.(status := Started), StartedByHost);
    assert start == StartedByHost && lobby.status == Started;
  }

  /** With the one-shot finalise, the second press of "생성" is refused, and
      the lobby cancelled through its only id is gone for good. */
  method SingleConfirmScenario() {
    var registry := new Registry();
    var lobby := new Lobby(7, "host", "내전", 5);
    lobby.PickMap(Rift);
    lobby.PickHour(20);
    var first := registry.FinalizeOnce(lobby, 100);
    assert first == Posted(AllEnabled) && registry.lobbies[100] == lobby;
    var second := registry.FinalizeOnce(lobby, 101);
    assert second == AlreadyPosted && 101 !in registry.lobbies;

    var cancel := registry.Cancel(100, 7);
    assert cancel.CancelledByHost? && lobby !in registry.lobbies.Values;
    var third := registry.FinalizeOnce(lobby, 102);
    assert third == AlreadyPosted;
  }
}
