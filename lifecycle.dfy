/** The lobby lifecycle of the bot as a value-level state machine: what a lobby
    record holds, how each button handler transforms it, and what stays true
    however the handlers are interleaved. Each handler is a pure step function
    from the lobby before to the lobby after and the reply the user sees. */
module Lifecycle {
  import opened Wrappers
  import opened PyText
  import opened Embed

  /** The value a map or start time holds before it is chosen. */
  const Unset: string := "미설정"

  /** The one map on which joining asks for tier and positions. */
  const Rift: string := "소환사의 협곡"

  const Maps: seq<string> := [Rift, "무작위 총력전", "무작위 총력전: 아수라장"]
  const Positions: seq<string> := ["탑", "정글", "미드", "원딜", "서포터"]
  const Tiers: seq<string> :=
    ["아이언", "브론즈", "실버", "골드", "플래티넘", "에메랄드", "다이아", "마스터", "마스터+300", "그랜드마스터", "챌린저"]

  const MinCapacity: int := 2
  const MaxCapacity: int := 20

  /** What a member record holds after a join on any map but the Rift. */
  const AnyValue: string := "무관"

  const CompletionNotice: string := "✅ 모집이 완료되었습니다! 참여자: "
  const CancelNotice: string := "❌ 호스트가 내전을 취소했습니다."

  datatype Status = Open | Closed | Started | Cancelled

  /** The string the source stores in `lobby["status"]`. */
  function StatusName(st: Status): string {
    match st
    case Open => "open"
    case Closed => "closed"
    case Started => "started"
    case Cancelled => "cancelled"
  }

  /** A lobby record. The guild and channel ids it also stores are never read. */
  datatype LobbyState = LobbyState(
    hostId: nat,
    hostName: string,
    title: string,
    capacity: int,
    members: seq<Member>,
    status: Status,
    mapName: string,
    startTime: string)

  /** Why a handler refused; each has its own ephemeral message. */
  datatype Refusal = NotFound | NotOpen | AlreadyJoined | Full | NotMember | NotHost | AlreadyStarted

  /** What a handler answers. `Joined` carries the completion notice posted to
      the channel when the join filled the lobby; `CancelledByHost` carries the
      notice posted on cancellation. */
  datatype Reply =
    | Refused(why: Refusal)
    | RolePrompt
    | Joined(announcement: Option<string>)
    | Left
    | ClosedByHost
    | StartedByHost
    | CancelledByHost(notice: string)
    | Picked

  datatype Step = Step(next: LobbyState, reply: Reply)

  /** The `disabled` flags of the four status-dependent buttons of a lobby
      message (the cancel button is never disabled). */
  datatype Buttons = Buttons(joinDisabled: bool, leaveDisabled: bool, closeDisabled: bool, startDisabled: bool)

  /** A freshly built `LobbyView`: nothing is disabled. */
  const AllEnabled: Buttons := Buttons(false, false, false, false)

  // ---------------------------------------------------------------------------
  // Members as an insertion-ordered dict

  function Uids(ms: seq<Member>): seq<nat> {
    seq(|ms|, i requires 0 <= i < |ms| => ms[i].uid)
  }

  /** No user is a key twice. */
  ghost predicate Distinct(ms: seq<Member>) {
    forall i, j :: 0 <= i < j < |ms| ==> ms[i].uid != ms[j].uid
  }

  /** `del members[uid]`: the entry of `uid` goes, the others keep their order. */
  function RemoveUid(ms: seq<Member>, uid: nat): (r: seq<Member>)
    ensures |r| <= |ms|
    ensures forall k :: 0 <= k < |r| ==> r[k] in ms && r[k].uid != uid
  {
    if ms == [] then []
    else
      var rest := RemoveUid(ms[1..], uid);
      if ms[0].uid == uid then rest else [ms[0]] + rest
  }

  lemma {:induction false} RemoveAbsent(ms: seq<Member>, uid: nat)
    requires uid !in Uids(ms)
    ensures RemoveUid(ms, uid) == ms
  {
    if ms != [] {
      assert Uids(ms)[0] == ms[0].uid;
      assert Uids(ms[1..]) == Uids(ms)[1..];
      RemoveAbsent(ms[1..], uid);
    }
  }

  /** With distinct keys, deleting the key at index k leaves exactly the entries
      before and after it. */
  lemma {:induction false} RemoveAt(ms: seq<Member>, uid: nat, k: nat)
    requires Distinct(ms) && k < |ms| && ms[k].uid == uid
    ensures RemoveUid(ms, uid) == ms[..k] + ms[k + 1..]
  {
    if k == 0 {
      assert uid !in Uids(ms[1..]);
      RemoveAbsent(ms[1..], uid);
    } else {
      RemoveAt(ms[1..], uid, k - 1);
      assert ms[1..][..k - 1] == ms[1..k];
      assert ms[1..][k..] == ms[k + 1..];
      assert [ms[0]] + ms[1..k] == ms[..k];
    }
  }

  lemma {:induction false} RemoveKeepsDistinct(ms: seq<Member>, uid: nat)
    requires Distinct(ms)
    ensures Distinct(RemoveUid(ms, uid))
  {
    if ms != [] {
      RemoveKeepsDistinct(ms[1..], uid);
      var rest := RemoveUid(ms[1..], uid);
      forall k | 0 <= k < |rest|
        ensures rest[k].uid != ms[0].uid
      {
        var j :| 0 <= j < |ms[1..]| && ms[1..][j] == rest[k];
        assert ms[j + 1] == rest[k];
      }
    }
  }

  // ---------------------------------------------------------------------------
  // Creation

  datatype CreateError = NotNumeric | OutOfRange

  /** The capacity field of the creation form: `int()` must accept it and the
      value must lie in 2..20. */
  function ValidateCapacity(text: string): (r: Result<int, CreateError>)
    ensures r.Success? ==> MinCapacity <= r.value <= MaxCapacity
  {
    match ParseInt(text)
    case None => Failure(NotNumeric)
    case Some(c) => if c < MinCapacity || c > MaxCapacity then Failure(OutOfRange) else Success(c)
  }

  /** The record the creation form builds: open, nobody in it, map and start
      time not chosen yet. */
  function Created(hostId: nat, hostName: string, title: string, capacity: int): LobbyState {
    LobbyState(hostId, hostName, title, capacity, [], Open, Unset, Unset)
  }

  /** `f"{h:02d}:00"`, the value of the hour picker's option h. */
  function HourValue(h: nat): string
    requires h < 24
  {
    [DigitChar(h / 10), DigitChar(h % 10)] + ":00"
  }

  ghost predicate IsHourValue(t: string) {
    exists h: nat :: h < 24 && t == HourValue(h)
  }

  /** Both the map and the start time have been picked. */
  predicate Ready(s: LobbyState) {
    s.mapName != Unset && s.startTime != Unset
  }

  // ---------------------------------------------------------------------------
  // The record invariant

  ghost predicate Inv(s: LobbyState) {
    && MinCapacity <= s.capacity <= MaxCapacity
    && |s.members| <= s.capacity
    && Distinct(s.members)
    && (s.mapName == Unset || s.mapName in Maps)
    && (s.startTime == Unset || IsHourValue(s.startTime))
  }

  // ---------------------------------------------------------------------------
  // Handlers

  /** The three checks both join paths make, in order. */
  function JoinRefusal(s: LobbyState, uid: nat): Option<Refusal> {
    if s.status != Open then Some(NotOpen)
    else if uid in Uids(s.members) then Some(AlreadyJoined)
    else if |s.members| >= s.capacity then Some(Full)
    else None
  }

  /** Add the member at the end; when the lobby message could be fetched and
      the lobby is now full, close it. */
  function Admit(s: LobbyState, uid: nat, info: Info, fetchOk: bool): LobbyState {
    var ms := s.members + [Member(uid, info)];
    s.(members := ms, status := if fetchOk && |ms| >= s.capacity then Closed else s.status)
  }

  /** The completion notice, posted when the lobby message was fetched and the
      lobby is closed after the join. */
  function Announcement(s: LobbyState, fetchOk: bool): Option<string> {
    if fetchOk && s.status == Closed then Some(CompletionNotice + Participants(s.members)) else None
  }

  /** What a join on any map but the Rift stores. */
  const AnyInfo: Info := InfoDict(PosText(AnyValue), Some(AnyValue))

  /** What a confirmed Rift join stores: the tier or "", and the chosen
      positions joined with " / " or "". */
  function RiftInfo(tier: Option<string>, positions: Option<seq<string>>): Info {
    var tierValue := if tier.Some? then tier.value else "";
    var positionValue := if positions.Some? && positions.value != [] then Join(positions.value, PositionSeparator) else "";
    InfoDict(PosText(positionValue), Some(tierValue))
  }

  /** The join button. */
  function PressJoin(s: LobbyState, uid: nat, fetchOk: bool): Step {
    match JoinRefusal(s, uid)
    case Some(why) => Step(s, Refused(why))
    case None =>
      if s.mapName != Rift then
        var s' := Admit(s, uid, AnyInfo, fetchOk);
        Step(s', Joined(Announcement(s', fetchOk)))
      else Step(s, RolePrompt)
  }

  /** The confirm button of the tier/position prompt, which checks again. */
  function ConfirmJoin(s: LobbyState, uid: nat, tier: Option<string>, positions: Option<seq<string>>, fetchOk: bool): Step {
    match JoinRefusal(s, uid)
    case Some(why) => Step(s, Refused(why))
    case None =>
      var s' := Admit(s, uid, RiftInfo(tier, positions), fetchOk);
      Step(s', Joined(Announcement(s', fetchOk)))
  }

  /** The leave button. */
  function PressLeave(s: LobbyState, uid: nat): Step {
    if s.status != Open then Step(s, Refused(NotOpen))
    else if uid !in Uids(s.members) then Step(s, Refused(NotMember))
    else Step(s.(members := RemoveUid(s.members, uid)), Left)
  }

  /** The close button (host only). */
  function PressClose(s: LobbyState, actor: nat): Step {
    if actor != s.hostId then Step(s, Refused(NotHost))
    else if s.status != Open then Step(s, Refused(NotOpen))
    else Step(s.(status := Closed), ClosedByHost)
  }

  /** The start button (host only). */
  function PressStart(s: LobbyState, actor: nat): Step {
    if actor != s.hostId then Step(s, Refused(NotHost))
    else if s.status == Started then Step(s, Refused(AlreadyStarted))
    else Step(s.(status := Started), StartedByHost)
  }

  /** The text posted to the channel on cancellation. */
  function CancelText(ms: seq<Member>): string {
    var who := Participants(ms);
    if who != "" then CancelNotice + " 참여자: " + who else CancelNotice
  }

  /** The cancel button (host only). The members stay in the record. */
  function PressCancel(s: LobbyState, actor: nat): Step {
    if actor != s.hostId then Step(s, Refused(NotHost))
    else Step(s.(status := Cancelled), CancelledByHost(CancelText(s.members)))
  }

  /** `refresh_message`: which buttons are disabled for a status. */
  function ButtonsFor(st: Status): Buttons {
    Buttons(st != Open, st != Open, st == Closed || st == Started, st == Started)
  }

  // ---------------------------------------------------------------------------
  // Runs of actions

  datatype Action =
    | JoinPress(uid: nat, fetchOk: bool)
    | JoinConfirm(uid: nat, tier: Option<string>, positions: Option<seq<string>>, fetchOk: bool)
    | LeavePress(uid: nat)
    | ClosePress(actor: nat)
    | StartPress(actor: nat)
    | CancelPress(actor: nat)
    | MapPick(choice: string)
    | HourPick(hour: nat)

  /** The map and hour pickers only offer their own options. */
  predicate Offered(a: Action) {
    match a
    case MapPick(choice) => choice in Maps
    case HourPick(hour) => hour < 24
    case _ => true
  }

  function Apply(s: LobbyState, a: Action): Step
    requires Offered(a)
  {
    match a
    case JoinPress(uid, fetchOk) => PressJoin(s, uid, fetchOk)
    case JoinConfirm(uid, tier, positions, fetchOk) => ConfirmJoin(s, uid, tier, positions, fetchOk)
    case LeavePress(uid) => PressLeave(s, uid)
    case ClosePress(actor) => PressClose(s, actor)
    case StartPress(actor) => PressStart(s, actor)
    case CancelPress(actor) => PressCancel(s, actor)
    case MapPick(choice) => Step(s.(mapName := choice), Picked)
    case HourPick(hour) => Step(s.(startTime := HourValue(hour)), Picked)
  }

  function Run(s: LobbyState, acts: seq<Action>): LobbyState
    requires forall i :: 0 <= i < |acts| ==> Offered(acts[i])
    decreases |acts|
  {
    if acts == [] then s else Run(Apply(s, acts[0]).next, acts[1..])
  }

  /** Open, then closed, then started or cancelled: a lobby only moves forward. */
  function Rank(st: Status): nat {
    match st
    case Open => 0
    case Closed => 1
    case Started => 2
    case Cancelled => 2
  }

  function Min(a: int, b: int): int {
    if a <= b then a else b
  }

  // ---------------------------------------------------------------------------
  // Creation properties

  /** A capacity of 2..20 typed as plain decimal is accepted as that number. */
  lemma {:induction false} CapacityAccepted(n: nat)
    requires MinCapacity <= n <= MaxCapacity
    ensures ValidateCapacity(Decimal(n)) == Success(n)
  {
    if n >= 10 {
      assert Decimal(n) == Decimal(n / 10) + [DigitChar(n % 10)];
    }
    ParseDecimal(n);
  }

  /** A number outside 2..20 is refused as out of range; so is every negative
      one (and "-0"). */
  lemma {:induction false} CapacityOutOfRange(n: nat, negative: bool)
    requires |Decimal(n)| <= MaxStrDigits
    requires negative || n < MinCapacity || n > MaxCapacity
    ensures ValidateCapacity(if negative then "-" + Decimal(n) else Decimal(n)) == Failure(OutOfRange)
  {
    ParseDecimal(n);
  }

  /** Text without a single digit is refused as not a number. */
  lemma {:induction false} CapacityNotNumeric(text: string)
    requires forall i :: 0 <= i < |text| ==> !IsDigit(text[i])
    ensures ValidateCapacity(text) == Failure(NotNumeric)
  {
    NoDigitNoInt(text);
  }

  /** Digits behind a control character `int()` does not skip, such as the
      file separator U+001C, are refused as not a number. */
  lemma {:induction false} CapacityAfterSeparator(digits: string)
    requires AllDigits(digits)
    ensures ValidateCapacity("\U{1C}" + digits) == Failure(NotNumeric)
  {
    UnskippedPrefixRefused('\U{1C}', digits);
  }

  /** A lobby fresh from the creation form is open and empty, cannot be posted
      yet, and satisfies the invariant. */
  lemma {:induction false} CreatedIsFresh(hostId: nat, hostName: string, title: string, capacity: int)
    requires MinCapacity <= capacity <= MaxCapacity
    ensures Inv(Created(hostId, hostName, title, capacity))
    ensures Created(hostId, hostName, title, capacity).status == Open
    ensures Created(hostId, hostName, title, capacity).members == []
    ensures !Ready(Created(hostId, hostName, title, capacity))
  {
  }

  /** The hour picker only yields "HH:00", zero-padded, the two digits reading
      back as the hour picked, and never the unset value. */
  lemma {:induction false} HourValueShape(h: nat)
    requires h < 24
    ensures |HourValue(h)| == 5 && HourValue(h)[2..] == ":00"
    ensures AllDigits(HourValue(h)[..2])
    ensures ParseInt(HourValue(h)[..2]) == Some(h)
    ensures HourValue(h) != Unset
  {
    var hh := HourValue(h)[..2];
    assert hh == [DigitChar(h / 10), DigitChar(h % 10)];
    ParseTwoDigits(hh);
    assert DigitsValue(hh) == h;
  }

  // ---------------------------------------------------------------------------
  // Join

  /** A join passes exactly when the lobby is open, the user is not in it and
      there is room; a refused join, on either path, changes nothing. */
  lemma {:induction false} JoinGuards(s: LobbyState, uid: nat, fetchOk: bool, tier: Option<string>, positions: Option<seq<string>>)
    ensures JoinRefusal(s, uid) == None <==> s.status == Open && uid !in Uids(s.members) && |s.members| < s.capacity
    ensures JoinRefusal(s, uid).Some? ==> PressJoin(s, uid, fetchOk) == Step(s, Refused(JoinRefusal(s, uid).value))
    ensures JoinRefusal(s, uid).Some? ==> ConfirmJoin(s, uid, tier, positions, fetchOk) == Step(s, Refused(JoinRefusal(s, uid).value))
  {
  }

  /** A join that passes appends one entry, for that user, keeps every other
      entry and field, and closes the lobby exactly when it is now full and the
      lobby message could be fetched; the invariant is kept. */
  lemma {:induction false} AdmitAppends(s: LobbyState, uid: nat, info: Info, fetchOk: bool)
    requires Inv(s) && JoinRefusal(s, uid) == None
    ensures Admit(s, uid, info, fetchOk).members == s.members + [Member(uid, info)]
    ensures Uids(Admit(s, uid, info, fetchOk).members) == Uids(s.members) + [uid]
    ensures Admit(s, uid, info, fetchOk).status == Closed <==> fetchOk && |s.members| + 1 == s.capacity
    ensures Admit(s, uid, info, fetchOk).status in {Open, Closed}
    ensures Admit(s, uid, info, fetchOk).(members := s.members, status := s.status) == s
    ensures Inv(Admit(s, uid, info, fetchOk))
  {
    var s' := Admit(s, uid, info, fetchOk);
    forall i | 0 <= i < |s.members|
      ensures s.members[i].uid != uid
    {
      assert Uids(s.members)[i] == s.members[i].uid;
    }
    assert Uids(s'.members) == Uids(s.members) + [uid];
  }

  /** The completion notice is posted exactly when the join filled the lobby
      (and the message could be fetched); it names every member in join
      order, the newcomer last. */
  lemma {:induction false} CompletionNamesMembers(s: LobbyState, uid: nat, info: Info, fetchOk: bool)
    requires Inv(s) && JoinRefusal(s, uid) == None
    ensures Announcement(Admit(s, uid, info, fetchOk), fetchOk).Some? <==> fetchOk && |s.members| + 1 == s.capacity
    ensures s.members != [] && Announcement(Admit(s, uid, info, fetchOk), fetchOk).Some? ==>
      Announcement(Admit(s, uid, info, fetchOk), fetchOk).value == CompletionNotice + Participants(s.members) + " " + Mention(uid)
  {
    AdmitAppends(s, uid, info, fetchOk);
    if s.members != [] {
      ParticipantsSnoc(s.members, Member(uid, info));
    }
  }

  /** A join on any map but the Rift shows the bare mention. */
  lemma {:induction false} AnyJoinLine(uid: nat)
    ensures MemberLine(Member(uid, AnyInfo)) == Mention(uid)
  {
    assert AnyValue in Placeholders;
  }

  /** A confirmed Rift join with a real tier and two positions shows both
      positions, joined with " / ", and the tier after the mention. Every tier
      and position the pickers offer qualifies (`OfferedValuesMeaningful`). */
  lemma {:induction false} RiftJoinLine(uid: nat, t: string, p1: string, p2: string)
    requires t !in Placeholders && p1 != "" && p2 != ""
    ensures MemberLine(Member(uid, RiftInfo(Some(t), Some([p1, p2])))) == Mention(uid) + " [" + p1 + " / " + p2 + " | " + t + "]"
  {
    var shown := Join([p1, p2], PositionSeparator);
    assert [p1, p2][1..] == [p2];
    assert Join([p2], PositionSeparator) == p2;
    assert shown == p1 + PositionSeparator + p2;
    assert |shown| >= 5;
    assert shown !in Placeholders;
    var info := RiftInfo(Some(t), Some([p1, p2]));
    assert info == InfoDict(PosText(shown), Some(t));
  }

  /** No tier or position the pickers offer is a placeholder. */
  lemma {:induction false} OfferedValuesMeaningful()
    ensures forall t :: t in Tiers ==> t !in Placeholders
    ensures forall p :: p in Positions ==> p !in Placeholders
  {
  }

  /** A confirmed Rift join without a tier shows the bare mention. */
  lemma {:induction false} RiftJoinWithoutTier(uid: nat, positions: Option<seq<string>>)
    ensures MemberLine(Member(uid, RiftInfo(None, positions))) == Mention(uid)
  {
    assert "" in Placeholders;
  }

  // ---------------------------------------------------------------------------
  // Leave

  /** Leaving works exactly when the lobby is open and the user is in it; it
      removes only that user's entry and keeps the order of the others; any
      other leave changes nothing. */
  lemma {:induction false} LeaveRemovesOnly(s: LobbyState, uid: nat)
    requires Inv(s)
    ensures PressLeave(s, uid).reply == Left <==> s.status == Open && uid in Uids(s.members)
    ensures PressLeave(s, uid).reply != Left ==> PressLeave(s, uid).next == s
    ensures PressLeave(s, uid).reply == Left ==>
      exists k :: 0 <= k < |s.members| && s.members[k].uid == uid &&
        PressLeave(s, uid).next == s.(members := s.members[..k] + s.members[k + 1..])
  {
    if s.status == Open && uid in Uids(s.members) {
      var k :| 0 <= k < |s.members| && Uids(s.members)[k] == uid;
      RemoveAt(s.members, uid, k);
    }
  }

  // ---------------------------------------------------------------------------
  // Host actions

  /** Close, start and cancel by anyone but the host are refused and change
      nothing. */
  lemma {:induction false} HostOnly(s: LobbyState, actor: nat)
    requires actor != s.hostId
    ensures PressClose(s, actor) == Step(s, Refused(NotHost))
    ensures PressStart(s, actor) == Step(s, Refused(NotHost))
    ensures PressCancel(s, actor) == Step(s, Refused(NotHost))
  {
  }

  /** For the host: close works only from open, start from anything but
      started, and cancel always; each success sets the status alone. A
      refused action changes nothing. */
  lemma {:induction false} HostTransitions(s: LobbyState)
    ensures PressClose(s, s.hostId).reply == ClosedByHost <==> s.status == Open
    ensures PressStart(s, s.hostId).reply == StartedByHost <==> s.status != Started
    ensures PressClose(s, s.hostId).reply != ClosedByHost ==> PressClose(s, s.hostId).next == s
    ensures PressStart(s, s.hostId).reply != StartedByHost ==> PressStart(s, s.hostId).next == s
    ensures s.status == Open ==> PressClose(s, s.hostId).next == s.(status := Closed)
    ensures s.status != Started ==> PressStart(s, s.hostId).next == s.(status := Started)
    ensures PressCancel(s, s.hostId).next == s.(status := Cancelled)
    ensures PressCancel(s, s.hostId).next.members == s.members
  {
  }

  /** The cancellation notice lists the participants exactly when there are
      any. */
  lemma {:induction false} CancelTextIff(ms: seq<Member>)
    ensures CancelText(ms) == CancelNotice <==> ms == []
    ensures ms != [] ==> CancelText(ms) == CancelNotice + " 참여자: " + Participants(ms)
  {
    ParticipantsEmptyIff(ms);
    if ms != [] {
      assert |CancelText(ms)| > |CancelNotice|;
    }
  }

  // ---------------------------------------------------------------------------
  // Buttons and labels

  /** Each button is enabled exactly when its handler's status check passes:
      join and leave while open, start unless started, close while open (a
      cancelled lobby has no buttons at all). */
  lemma {:induction false} ButtonsMatchGuards(s: LobbyState, uid: nat)
    ensures !ButtonsFor(s.status).joinDisabled <==> JoinRefusal(s, uid) != Some(NotOpen)
    ensures !ButtonsFor(s.status).leaveDisabled <==> PressLeave(s, uid).reply != Refused(NotOpen)
    ensures !ButtonsFor(s.status).startDisabled <==> PressStart(s, s.hostId).reply == StartedByHost
    ensures s.status != Cancelled ==> (!ButtonsFor(s.status).closeDisabled <==> PressClose(s, s.hostId).reply == ClosedByHost)
  {
  }

  /** Every status the handlers store gets its own Korean label; none is shown
      raw. */
  lemma {:induction false} StatusLabelsDistinct(a: Status, b: Status)
    ensures StatusLabel(StatusName(a)) != StatusName(a)
    ensures StatusLabel(StatusName(a)) == StatusLabel(StatusName(b)) ==> a == b
  {
  }

  /** A status string no handler stores is shown as it is. */
  lemma {:induction false} StatusLabelUnknown(name: string)
    requires forall st: Status :: StatusName(st) != name
    ensures StatusLabel(name) == name
  {
    assert StatusName(Open) != name && StatusName(Closed) != name;
    assert StatusName(Started) != name && StatusName(Cancelled) != name;
  }

  // ---------------------------------------------------------------------------
  // Whole runs

  lemma {:induction false} StepKeepsInv(s: LobbyState, a: Action)
    requires Inv(s) && Offered(a)
    ensures Inv(Apply(s, a).next)
  {
    match a
    case JoinPress(uid, fetchOk) =>
      if JoinRefusal(s, uid) == None && s.mapName != Rift {
        AdmitAppends(s, uid, AnyInfo, fetchOk);
      }
    case JoinConfirm(uid, tier, positions, fetchOk) =>
      if JoinRefusal(s, uid) == None {
        AdmitAppends(s, uid, RiftInfo(tier, positions), fetchOk);
      }
    case LeavePress(uid) =>
      RemoveKeepsDistinct(s.members, uid);
    case HourPick(hour) =>
      assert IsHourValue(HourValue(hour));
    case _ =>
  }

  /** Whatever the users and the host do, in whatever order, the invariant
      holds: members never exceed the capacity and no user is in twice. */
  lemma {:induction false} RunKeepsInv(s: LobbyState, acts: seq<Action>)
    requires Inv(s)
    requires forall i :: 0 <= i < |acts| ==> Offered(acts[i])
    ensures Inv(Run(s, acts))
    decreases |acts|
  {
    if acts != [] {
      StepKeepsInv(s, acts[0]);
      RunKeepsInv(Apply(s, acts[0]).next, acts[1..]);
    }
  }

  /** One handler moves the status only open to closed, to started from
      anything but started, or to cancelled. */
  lemma {:induction false} StepMoves(s: LobbyState, a: Action)
    requires Offered(a)
    ensures var t := Apply(s, a).next.status;
      || t == s.status
      || (s.status == Open && t == Closed)
      || (s.status != Started && t == Started)
      || t == Cancelled
    ensures Rank(s.status) <= Rank(Apply(s, a).next.status)
  {
  }

  /** No sequence of actions takes a lobby back: once it has left open it never
      reopens, and once started or cancelled it is never closed again. */
  lemma {:induction false} RunNeverReopens(s: LobbyState, acts: seq<Action>)
    requires forall i :: 0 <= i < |acts| ==> Offered(acts[i])
    ensures Rank(s.status) <= Rank(Run(s, acts).status)
    ensures Run(s, acts).status == Open ==> s.status == Open
    decreases |acts|
  {
    if acts != [] {
      StepMoves(s, acts[0]);
      RunNeverReopens(Apply(s, acts[0]).next, acts[1..]);
    }
  }

  /** N join attempts by distinct newcomers against an open lobby of capacity C
      holding m members leave exactly min(m + N, C) members: nobody is turned
      away while there is room, and nobody gets in beyond it. */
  lemma {:induction false} JoinsFillToMin(s: LobbyState, acts: seq<Action>)
    requires Inv(s)
    requires s.status == Open || (s.status == Closed && |s.members| == s.capacity)
    requires forall i :: 0 <= i < |acts| ==> (acts[i].JoinPress? && s.mapName != Rift) || acts[i].JoinConfirm?
    requires forall i, j :: 0 <= i < j < |acts| ==> acts[i].uid != acts[j].uid
    requires forall i :: 0 <= i < |acts| ==> acts[i].uid !in Uids(s.members)
    ensures forall i :: 0 <= i < |acts| ==> Offered(acts[i])
    ensures |Run(s, acts).members| == Min(|s.members| + |acts|, s.capacity)
    decreases |acts|
  {
    assert forall i :: 0 <= i < |acts| ==> Offered(acts[i]);
    if acts != [] {
      var a := acts[0];
      var s1 := Apply(s, a).next;
      if |s.members| < s.capacity {
        var info := if a.JoinPress? then AnyInfo else RiftInfo(a.tier, a.positions);
        AdmitAppends(s, a.uid, info, a.fetchOk);
        assert s1 == Admit(s, a.uid, info, a.fetchOk);
      } else {
        assert s1 == s;
      }
      StepKeepsInv(s, a);
      forall i | 0 <= i < |acts[1..]|
        ensures acts[1..][i].uid !in Uids(s1.members)
      {
        assert acts[1..][i] == acts[i + 1];
      }
      JoinsFillToMin(s1, acts[1..]);
    }
  }
}
