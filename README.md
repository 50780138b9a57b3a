# Sodabot lobby lifecycle in Dafny

Sodabot is a Discord bot that runs recruitment lobbies for in-house League of
Legends matches ("내전"). A host fills in a creation form (title, capacity),
picks a map and a start hour in a private panel, and presses "생성". The bot then
posts a public lobby message with five buttons: join, leave, close, start and
cancel. All lobbies live in one in-memory dict, `lobbies`, keyed by the id of
their public message. Each lobby is a dict holding:

- the host's id and name;
- the title and the capacity;
- an insertion-ordered `members` dict mapping user id to `{position, tier}`;
- the status: `open`, `closed`, `started` or `cancelled`;
- the map and the start time.

This project models that lifecycle and proves what it guarantees.

The model has four modules:

- `PyText` (`pytext.dfy`): the Python built-ins the handlers rely on.
  - `int(str)`: stripping of the whitespace it skips (ASCII tab, newline,
    vertical tab, form feed, carriage return and space, and the non-ASCII
    characters for which `str.isspace()` holds), an optional sign, digits with
    single underscores between them, and the 4300-digit limit.
  - Decimal rendering of a user id.
  - `str.join`.
- `Embed` (`embed.dfy`): the value computations of `lobby_embed`.
  - The placeholder filter and the member lines `<@uid> [position | tier]`.
  - The "(아직 없음)" text.
  - The participant mention list.
  - The Korean status labels.
  - The member-line loop is a method proved against the function that
    specifies it.
- `Lifecycle` (`lifecycle.dfy`): the lobby record as a value, `LobbyState`, and
  one step function per handler. Each step function gives the next record and
  the reply, in the handler's own guard order. The invariant `Inv` says:
  - the capacity is in 2..20;
  - there are never more members than the capacity;
  - no user is in twice;
  - the map is unset or one of the offered maps;
  - the start time is unset or "HH:00".

  The module also defines `Run`, which applies any sequence of button presses
  and picker choices. Its lemmas cover the guards, each handler's effect, and
  whole runs: the invariant holds over any run, and a lobby never reopens.
- `Sodabot` (`sodabot.dfy`): the objects the handlers mutate in place.
  - `Lobby` is a class with the dict's fields. Its methods `Join`,
    `ConfirmJoin`, `Leave`, `Close`, `Start`, `Cancel`, `PickMap` and
    `PickHour` each ensure that the new record and the reply are exactly those
    of the matching `Lifecycle` step. Everything proved about the steps
    therefore holds of the objects.
  - `Registry` is the `lobbies` dict. It is a map from message id to `Lobby`
    object, and one lobby object can be registered under more than one id.
  - `SubmitCreateForm` is the creation form.
  - Four scenario methods verify the contracts on concrete action sequences,
    with every join going through the registry as the buttons do.

Discord itself is reduced to data:
- A message id is a parameter.
- A reply is a `Reply` value carrying the text of any public notice.
- Whether `fetch_message` succeeded is a `fetchOk` input. The auto-close and the
  completion notice sit after that call inside a `try`, so they happen only when
  it succeeds.

## Model

| member | source | states |
|---|---|---|
| PyText.Decimal | app/sodabot.py:61-63 | defines `str(uid)` for the mentions; stated by `DecimalDigits` and `ParseDecimal` |
| PyText.DecimalDigits | app/sodabot.py:470 | the decimal rendering of a user id in a mention is a non-empty digit string that reads back as that id |
| PyText.ParseInt | app/sodabot.py:94 | defines `int(str)` in base 10, `None` where it raises ValueError; its behaviour is stated by the `Parse…`, `NoDigitNoInt` and `UnskippedPrefixRefused` lemmas |
| PyText.ParseDecimal | app/sodabot.py:94 | `int()` of a number's decimal text, with or without a leading minus, gives back that number (within the 4300-digit limit) |
| PyText.ParseDigits | app/sodabot.py:94 | `int()` of any non-empty run of ASCII digits within the 4300-digit limit is its decimal value |
| PyText.NoDigitNoInt | app/sodabot.py:94-95 | text without a single digit makes `int()` fail with ValueError |
| PyText.ParseTwoDigits | app/sodabot.py:199 | a two-digit string is worth ten times its first digit plus its second, and `int()` reads it so |
| PyText.StripLeft | app/sodabot.py:94 | exactly the leading whitespace `int()` skips is cut: the result is a suffix of the text, everything cut is such whitespace, and the result does not start with it |
| PyText.StripRight | app/sodabot.py:94 | likewise at the end: a prefix of the text, everything cut is whitespace `int()` skips, and the result does not end with it |
| PyText.UnskippedPrefixRefused | app/sodabot.py:94-95 | a character that is neither skipped whitespace, a digit nor a sign (such as U+001C) in front of the digits makes `int()` raise |
| PyText.Join | app/sodabot.py:55 | defines `sep.join`, also used at :274, :292, :470 and :551; stated by `JoinSnoc`, `JoinPrefix`, `JoinLonger` |
| PyText.JoinSnoc | app/sodabot.py:470 | `sep.join` of a list with one more element is the old join, the separator and the new element |
| Embed.DropPlaceholders | app/sodabot.py:54 | the filtered position list keeps only non-placeholder entries of the original and every one of them, is empty exactly when every entry is a placeholder, and is the list itself when none is |
| Embed.DropPlaceholdersAppend | app/sodabot.py:54 | the filter works entry by entry: filtering a concatenation is concatenating the filtered halves, so kept entries keep their order |
| Embed.PlaceholderSkipped | app/sodabot.py:52-55 | a placeholder between two real positions is dropped and the two are shown joined with " / " |
| Embed.PositionDisplay | app/sodabot.py:52-57 | defines `position_display`: a list filtered and joined with " / " (nothing when empty), any other value as it is; stated by `ListDisplayMeaningful` and `PlaceholderSkipped` |
| Embed.ShowExtra | app/sodabot.py:59 | defines `show_extra`: both the displayed position and the tier lie outside the placeholder set; stated by `LineExtraIff` |
| Embed.Mention | app/sodabot.py:61-63 | defines the mention `<@uid>`, also used at :292, :470 and :551; stated by `LineExtraIff`, `ParticipantsSnoc` |
| Embed.MemberLine | app/sodabot.py:60-63 | defines one member line, the mention with `[position \| tier]` when `show_extra` holds; stated by `LineExtraIff`, `AnyJoinLine`, `RiftJoinLine` |
| Embed.MemberText | app/sodabot.py:64 | defines `member_text`, the lines joined by newlines or "(아직 없음)"; built by `BuildMemberText`, stated by `MemberTextEmptyIff` |
| Embed.Participants | app/sodabot.py:470 | defines the space-separated mention list of the completion and cancellation notices; stated by `ParticipantsSnoc`, `ParticipantsEmptyIff` |
| Embed.StatusLabel | app/sodabot.py:33-38 | defines `status_kr`; stated by `StatusLabelsDistinct` and `StatusLabelUnknown` |
| Embed.ListDisplayMeaningful | app/sodabot.py:52-55 | a list position displays nothing exactly when all of its entries are placeholders, and otherwise displays a value that is itself no placeholder |
| Embed.LineExtraIff | app/sodabot.py:59-63 | every member line starts with the member's mention, and it carries more than the mention exactly when `show_extra` holds |
| Embed.BuildMemberText | app/sodabot.py:41-64 | the loop over the members builds exactly the member text: one line per member in join order, joined by newlines, or "(아직 없음)" |
| Embed.MemberTextEmptyIff | app/sodabot.py:64 | "(아직 없음)" is shown exactly when there are no members |
| Embed.ParticipantsSnoc | app/sodabot.py:470 | the participant list follows join order: a newcomer's mention goes at the end |
| Embed.ParticipantsEmptyIff | app/sodabot.py:551-554 | the participant list is empty exactly when there are no members |
| Lifecycle.RemoveUid | app/sodabot.py:497 | deleting a key keeps only entries that were there, none of them for the deleted user |
| Lifecycle.RemoveAt | app/sodabot.py:497 | with distinct keys, deleting the key at position k leaves exactly the entries before and after it, in order |
| Lifecycle.RemoveKeepsDistinct | app/sodabot.py:497 | deleting a key keeps the keys distinct |
| Lifecycle.ValidateCapacity | app/sodabot.py:92-101 | an accepted capacity lies in 2..20 |
| Lifecycle.CapacityAccepted | app/sodabot.py:93-101 | every capacity from 2 to 20 typed as plain decimal is accepted as that number |
| Lifecycle.CapacityOutOfRange | app/sodabot.py:99-101 | within the 4300-digit limit, a number below 2 or above 20, and every negative number, is refused as out of range |
| Lifecycle.CapacityAfterSeparator | app/sodabot.py:93-97 | digits behind the file separator U+001C are refused as not a number, since `int()` does not skip it |
| Lifecycle.CapacityNotNumeric | app/sodabot.py:93-97 | text without a digit is refused as not a number |
| Lifecycle.Ready | app/sodabot.py:152-154 | defines the finalise guard, both map and start time picked; stated by `Sodabot.Registry.Finalize` and `Lifecycle.CreatedIsFresh` |
| Lifecycle.Created | app/sodabot.py:104-115 | defines the creation form's lobby record; stated by `CreatedIsFresh` |
| Lifecycle.HourValue | app/sodabot.py:199 | defines the hour picker's value `f"{h:02d}:00"`; stated by `HourValueShape` |
| Lifecycle.CreatedIsFresh | app/sodabot.py:104-115 | a new lobby is open and empty, satisfies the invariant, and cannot be posted before both map and time are picked |
| Lifecycle.HourValueShape | app/sodabot.py:199 | the hour picker yields "HH:00": five characters, two ASCII digits (zero-padded) that read back as the hour, then ":00", and never the "미설정" marker |
| Lifecycle.JoinRefusal | app/sodabot.py:439-450 | defines the three join checks in order (open, not yet joined, room), repeated at :257-268; stated by `JoinGuards` |
| Lifecycle.Admit | app/sodabot.py:456-465 | defines the insert and the auto-close after a successful fetch, repeated at :278-286; stated by `AdmitAppends` |
| Lifecycle.Announcement | app/sodabot.py:469-471 | defines the completion notice, repeated at :291-293; stated by `CompletionNamesMembers` |
| Lifecycle.RiftInfo | app/sodabot.py:271-278 | defines the stored tier (or "") and the positions joined with " / " (or ""); stated by `RiftJoinLine`, `RiftJoinWithoutTier` |
| Lifecycle.PressJoin | app/sodabot.py:433-479 | defines the join button's step: the guards in order, then the "무관" entry on non-Rift maps or the role prompt on the Rift; stated by `JoinGuards`, `AdmitAppends`, `CompletionNamesMembers`, `AnyJoinLine` |
| Lifecycle.ConfirmJoin | app/sodabot.py:251-297 | defines the Rift confirm's step: the same guards again, then the entry with tier and positions; stated by `JoinGuards`, `AdmitAppends`, `RiftJoinLine`, `RiftJoinWithoutTier` |
| Lifecycle.PressLeave | app/sodabot.py:482-497 | defines the leave button's step; stated by `LeaveRemovesOnly` |
| Lifecycle.PressClose | app/sodabot.py:502-516 | defines the close button's step; stated by `HostOnly`, `HostTransitions` |
| Lifecycle.PressStart | app/sodabot.py:521-535 | defines the start button's step; stated by `HostOnly`, `HostTransitions` |
| Lifecycle.PressCancel | app/sodabot.py:540-562 | defines the cancel button's step on the record; stated by `HostOnly`, `HostTransitions`, `CancelTextIff` |
| Lifecycle.CancelText | app/sodabot.py:551-557 | defines the cancellation notice; stated by `CancelTextIff` |
| Lifecycle.ButtonsFor | app/sodabot.py:415-425 | defines the button flags for a status; stated by `ButtonsMatchGuards` |
| Lifecycle.JoinGuards | app/sodabot.py:439-450 | a join (button or confirm) passes exactly when the lobby is open, the user is not in it and there is room; otherwise the lobby is unchanged and the failed check is reported |
| Lifecycle.AdmitAppends | app/sodabot.py:456-465 | a passing join appends one entry for that user after the others, and closes the lobby exactly when the fetch succeeded and the lobby is now full; nothing else changes and the invariant is kept |
| Lifecycle.CompletionNamesMembers | app/sodabot.py:461-471 | with the lobby message fetched, the completion notice is due exactly when the join filled the lobby, and it mentions everyone in join order, the newcomer last |
| Lifecycle.AnyJoinLine | app/sodabot.py:454-459 | a join on a map other than the Rift stores "무관" and shows only the mention |
| Lifecycle.RiftJoinLine | app/sodabot.py:271-278 | a confirmed Rift join with a real tier and two positions shows `[first / second \| tier]` after the mention |
| Lifecycle.OfferedValuesMeaningful | app/sodabot.py:19-20 | no tier or position the pickers offer is a placeholder value |
| Lifecycle.RiftJoinWithoutTier | app/sodabot.py:271-278 | a confirm without a picked tier stores "" and shows only the mention |
| Lifecycle.LeaveRemovesOnly | app/sodabot.py:488-497 | leaving works exactly when the lobby is open and the user is in it; it removes that entry alone, keeps the others in order, and changes nothing on refusal |
| Lifecycle.HostOnly | app/sodabot.py:508-548 | close, start and cancel by anyone but the host are refused and change nothing |
| Lifecycle.HostTransitions | app/sodabot.py:512-562 | for the host, close works only from open, start from anything but started, and cancel always; each success sets the status alone, keeping the members and every other field, and a refusal changes nothing |
| Lifecycle.CancelTextIff | app/sodabot.py:551-557 | the cancellation notice lists the participants exactly when there are any |
| Lifecycle.ButtonsMatchGuards | app/sodabot.py:415-425 | join and leave are enabled exactly when their status check passes, start exactly when the host's start would work, and (outside cancelled) close exactly when the host's close would work |
| Lifecycle.StatusLabelsDistinct | app/sodabot.py:33-38 | each stored status gets its own Korean label, never the raw name |
| Lifecycle.StatusLabelUnknown | app/sodabot.py:33-38 | a status string no handler stores is shown unchanged |
| Lifecycle.StepKeepsInv | app/sodabot.py:433-563 | every handler keeps the invariant |
| Lifecycle.RunKeepsInv | app/sodabot.py:433-563 | over any sequence of presses and picks, the invariant holds: at most capacity members, no user twice |
| Lifecycle.StepMoves | app/sodabot.py:433-563 | a handler moves the status only from open to closed, to started from anything but started, or to cancelled |
| Lifecycle.RunNeverReopens | app/sodabot.py:433-563 | no run takes a lobby back: once it has left open it never reopens, and a started or cancelled lobby is never closed |
| Lifecycle.JoinsFillToMin | app/sodabot.py:448-465 | N distinct newcomers joining an open lobby (join presses on a map other than the Rift, or Rift confirms) with m of C places taken leave exactly min(m + N, C) members, whatever the fetch outcomes |
| Sodabot.Lobby.constructor | app/sodabot.py:104-115 | the new record is the creation form's open, empty lobby |
| Sodabot.Lobby.PickMap | app/sodabot.py:184-185 | only the map changes, to the picked one |
| Sodabot.Lobby.PickHour | app/sodabot.py:202-204 | only the start time changes, to the picked "HH:00" |
| Sodabot.Lobby.IsHost | app/sodabot.py:429-430 | defines `is_host`, the actor being the lobby's host; the host check of close, start and cancel, stated through `Lifecycle.HostOnly` and `HostTransitions` |
| Sodabot.Lobby.Admit | app/sodabot.py:456-471 | the in-place insert and auto-close produce the `Admit` record and the completion notice |
| Sodabot.Lobby.Join | app/sodabot.py:433-479 | the new record and the reply are those of `PressJoin` |
| Sodabot.Lobby.ConfirmJoin | app/sodabot.py:251-297 | the new record and the reply are those of `ConfirmJoin` |
| Sodabot.Lobby.Leave | app/sodabot.py:482-499 | the new record and the reply are those of `PressLeave` |
| Sodabot.Lobby.Close | app/sodabot.py:502-518 | the new record and the reply are those of `PressClose` |
| Sodabot.Lobby.Start | app/sodabot.py:521-537 | the new record and the reply are those of `PressStart` |
| Sodabot.Lobby.Cancel | app/sodabot.py:540-562 | the new record and the reply, carrying the public notice, are those of `PressCancel` |
| Sodabot.SubmitCreateForm | app/sodabot.py:92-118 | a rejected capacity gives its error and no lobby; an accepted one gives a fresh open, empty lobby with that capacity |
| Sodabot.Registry.constructor | app/sodabot.py:16 | the registry starts empty |
| Sodabot.Registry.Finalize | app/sodabot.py:150-170 | posting is refused exactly when map or start time is unset; otherwise the lobby is registered under the new message id, overwriting nothing else, with all buttons enabled |
| Sodabot.Registry.FinalizeOnce | app/sodabot.py:150-170 | as `Finalize`, but a draft already posted is refused; it keeps each lobby under one id and no cancelled lobby reachable |
| Sodabot.Registry.Join | app/sodabot.py:433-437 | an unknown id is answered "not found"; otherwise the registered lobby makes the `PressJoin` step |
| Sodabot.Registry.ConfirmJoin | app/sodabot.py:251-255 | an unknown id is answered "not found"; otherwise the lobby makes the `ConfirmJoin` step |
| Sodabot.Registry.Leave | app/sodabot.py:482-486 | an unknown id is answered "not found"; otherwise the lobby makes the `PressLeave` step |
| Sodabot.Registry.Close | app/sodabot.py:502-506 | an unknown id is answered "not found"; otherwise the lobby makes the `PressClose` step |
| Sodabot.Registry.Start | app/sodabot.py:521-525 | an unknown id is answered "not found"; otherwise the lobby makes the `PressStart` step |
| Sodabot.Registry.Cancel | app/sodabot.py:540-563 | the host's cancel marks the lobby cancelled and drops its id, so the id answers "not found" afterwards; in a sound registry the lobby is then unreachable |
| Sodabot.Registry.Refresh | app/sodabot.py:410-425 | an unknown id gives nothing; otherwise the button flags for the lobby's status |

## Left out

- Discord I/O is modelled only as data.
  - Replies and notices are `Reply` values.
  - Embeds are reduced to their member text and status label.
  - The success of `fetch_message` is an input.
  - Message edits, deferrals and ephemeral replies are not modelled.
- Embed colour, title, description and footer formatting (app/sodabot.py:66-72) are plain formatting with no logic, and are not modelled.
- `FinalizeLobbyView.update_interaction_message` and the map and hour pickers' redraws only re-render the panel.
- The disabled flag of the cancel button is never set, so it is not modelled.
- `on_ready`, the channel-history scan, `client.run` and token loading are startup plumbing.
- `SelectionView`, `TierSelect` and `PositionSelect` are left out because they are unreachable. Including them would add an unguarded insert that breaks the capacity invariant.
- `SelectModal` is a no-op and `LobbyViewPlaceholder` is a placeholder view; neither is modelled.
- app/sample.py is left out entirely: it is message-handling glue.
- Concurrency is left out: the model is a sequence of handler calls, with no interleaving at `await` points.
- The `guild_id` and `channel_id` fields are stored but never read, so they are not modelled.
- PyText.ParseInt accepts only ASCII digits. Python's `int()` also accepts other Unicode decimal digits; those are not modelled.
- Lifecycle.CompletionNamesMembers: the notice is carried whenever the fetch succeeded and the join filled the lobby. In the code, the message edit (app/sodabot.py:467 and :288) and the send itself sit in the same `try`, so if either raises after a successful fetch, the lobby is closed but no notice goes out; failures after the fetch are not modelled.
- Sodabot.Lobby.Cancel: the cancellation notice is always carried in the reply. In the code, a failing `channel.send` is swallowed (app/sodabot.py:553-559), so the lobby is cancelled and no notice goes out; that failure is not modelled.
- Lifecycle.Run: the finalise panel and the Rift role prompt stop answering after 180 seconds without interaction (app/sodabot.py:125 and :222). The model allows map and hour picks and Rift confirms at any time, so it admits more runs than the bot does; every property proved over all runs still holds.
- Lifecycle.JoinsFillToMin covers joins by distinct newcomers only, on an open lobby (or one already full), through join presses on a map other than the Rift or through Rift confirms. Repeated or already-joined users are refused by `JoinGuards`; a lobby the host closed with room left refuses every join as not open; and a join press on the Rift only opens the role prompt and adds nobody.
- The positions of a confirmed Rift join are given as an optional sequence. The picker's requirement of exactly two values (app/sodabot.py:320-321) appears only as the hypothesis of Lifecycle.RiftJoinLine.

Where the code differs from the behaviour a reader might expect, the model
follows the code:

- A third join on a full capacity-2 lobby is refused as "no longer open", not "full". The status check comes before the capacity check, and the second join already closed the lobby.
- If `fetch_message` fails, a join that fills the lobby leaves it open. Later joins are then refused as full.
- A join stores "무관" for both position and tier on non-Rift maps. A Rift confirm stores "" when no tier is picked.
- Cancelling keeps the members. It only sets the status and drops the registry entry.
- Start is allowed from closed and from cancelled, since only "already started" is refused. A cancelled lobby can be reached in two ways, both through the "생성" button of the finalise panel described under Findings. The first is a second id registered before the cancel. The second is a press of "생성" after the cancel, within the panel's 180-second timeout, which registers the cancelled lobby under a new id.
- After a join closes the lobby, the message is redrawn with a fresh `LobbyView` whose buttons are all enabled (app/sodabot.py:287-288 and :466-467). The buttons shown follow `ButtonsFor` again only after the next successful leave, close or start redraws them (app/sodabot.py:499, :518 and :537). The handlers' own checks still refuse what the enabled buttons would offer.

## Findings

| source | as written | input that shows it | evidently intended | confidence | as-written member | corrected member |
|---|---|---|---|---|---|---|
| app/sodabot.py:150-163 | the "생성" button of the finalise panel stays active after posting, and each press registers the same lobby dict under a new message id | host presses "생성" twice (ids 100 and 101), then cancels through 100: id 101 still reaches the cancelled lobby, and the host's start through it succeeds; likewise a press of "생성" after the cancel registers the cancelled lobby under a fresh id | a lobby is posted once; after cancelling, every action on it answers "not found" | medium, not executed | Sodabot.Registry.Finalize (exhibited by Sodabot.DoubleConfirmScenario and Sodabot.CancelThroughAlias) | Sodabot.Registry.FinalizeOnce (with Sodabot.Registry.Cancel keeping Registry.Sound; exhibited by Sodabot.SingleConfirmScenario) |
