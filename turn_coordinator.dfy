// The per-client state machine of src/components/GameInterface.tsx: the
// handlers and effects that change `messages`, `characters`, `input`,
// `isLoading`, `location` and `suggestedActions`. Awaited server actions are
// taken as one step each; every `saveGame` call is appended to `saves`.

module TurnCoordinator {
  import opened Types
  import opened Text
  import GameUtils
  import Narrative
  import opened Roster

  const UnknownLocation: string := "Desconocido"
  const RollPrefix: string := "Lanzo los dados: "

  /** The `game_state` of a realtime payload; either list may be missing. */
  datatype GameState = GameState(messages: Option<seq<Message>>, party: Option<seq<Character>>)

  /** The chat entry `handleSend` shows at once. */
  function PlayerMessage(text: string, now: int): (m: Message)
    ensures m.sender == Player && m.text == text && m.dmState.None?
  {
    Message(IntToString(now), Player, text, now, None)
  }

  class GameSession {
    const userEmail: string
    const lobbyId: string
    var messages: seq<Message>
    var characters: seq<Character>
    var input: string
    var isLoading: bool
    var location: string
    var suggestedActions: seq<string>
    /** The `saveGame(lobbyId, party, messages)` calls issued so far, oldest first. */
    var saves: seq<SaveCall>

    constructor(party: seq<Character>, userEmail: string, lobbyId: string, initialMessages: seq<Message>)
      ensures this.userEmail == userEmail && this.lobbyId == lobbyId
      ensures messages == initialMessages && characters == party
      ensures input == "" && !isLoading && location == UnknownLocation && suggestedActions == []
      ensures saves == []
    {
      this.userEmail := userEmail;
      this.lobbyId := lobbyId;
      messages := initialMessages;
      characters := party;
      input := "";
      isLoading := false;
      location := UnknownLocation;
      suggestedActions := [];
      saves := [];
    }

    /** `canAct` over the current state. */
    predicate CanActNow()
      reads this
    {
      CanAct(characters, userEmail, isLoading)
    }

    /**
     * `handleSend`: nothing happens for blank text or when the user may not act;
     * otherwise one player message is appended, exactly the user's characters
     * become ready with the full action, the input and suggestions are cleared,
     * and the new party and messages are saved.
     */
    method HandleSend(actionText: string, rollResult: Option<string>, now: int)
      modifies this
      ensures Trim(actionText) == "" || !old(CanActNow()) ==> unchanged(this)
      ensures Trim(actionText) != "" && old(CanActNow()) ==>
        var full := FullAction(actionText, rollResult);
        && messages == old(messages) + [PlayerMessage(full, now)]
        && characters == MarkReady(old(characters), userEmail, full)
        && input == "" && suggestedActions == []
        && isLoading == old(isLoading) && location == old(location)
        && saves == old(saves) + [SaveCall(lobbyId, characters, messages)]
    {
      if Trim(actionText) == "" || !CanActNow() {
        return;
      }
      var full := FullAction(actionText, rollResult);
      var updatedMessages := messages + [PlayerMessage(full, now)];
      messages := updatedMessages;
      var newParty := MarkReady(characters, userEmail, full);
      characters := newParty;
      input := "";
      suggestedActions := [];
      saves := saves + [SaveCall(lobbyId, newParty, updatedMessages)];
    }

    /** `handleRoll`: submits the roll as the action, with the roll attached. */
    method HandleRoll(resultStr: string, now: int)
      modifies this
      ensures !old(CanActNow()) ==> unchanged(this)
      ensures old(CanActNow()) ==>
        var full := FullAction(RollPrefix + resultStr, Some(resultStr));
        && messages == old(messages) + [PlayerMessage(full, now)]
        && characters == MarkReady(old(characters), userEmail, full)
        && input == "" && suggestedActions == []
        && isLoading == old(isLoading) && location == old(location)
        && saves == old(saves) + [SaveCall(lobbyId, characters, messages)]
    {
      assert (RollPrefix + resultStr)[0] == 'L';
      HandleSend(RollPrefix + resultStr, Some(resultStr), now);
    }

    /** The action field accepts typing only while the user may act. */
    method TypeInput(text: string)
      modifies this
      ensures input == (if old(CanActNow()) then text else old(input))
      ensures messages == old(messages) && characters == old(characters) && saves == old(saves)
      ensures isLoading == old(isLoading) && location == old(location) && suggestedActions == old(suggestedActions)
    {
      if CanActNow() {
        input := text;
      }
    }

    /** The suggestion chips are shown while nothing is loading and the user's hero, if any, is not ready. */
    predicate SuggestionsShown()
      reads this
    {
      var mine := MyCharacter(characters, userEmail);
      |suggestedActions| > 0 && !isLoading && (mine.None? || !characters[mine.value].isReady)
    }

    /** Clicking a shown suggestion copies it into the action field. */
    method ClickSuggestion(i: nat)
      requires i < |suggestedActions|
      modifies this
      ensures input == (if old(SuggestionsShown()) then old(suggestedActions)[i] else old(input))
      ensures messages == old(messages) && characters == old(characters) && saves == old(saves)
      ensures isLoading == old(isLoading) && location == old(location) && suggestedActions == old(suggestedActions)
    {
      if SuggestionsShown() {
        input := suggestedActions[i];
      }
    }

    /**
     * Enter in the action field or the send button: `handleSend()` with no
     * argument, so the action is the current input and no roll is attached.
     */
    method Send(now: int)
      modifies this
      ensures Trim(old(input)) == "" || !old(CanActNow()) ==> unchanged(this)
      ensures Trim(old(input)) != "" && old(CanActNow()) ==>
        && messages == old(messages) + [PlayerMessage(old(input), now)]
        && characters == MarkReady(old(characters), userEmail, old(input))
        && input == "" && suggestedActions == []
        && isLoading == old(isLoading) && location == old(location)
        && saves == old(saves) + [SaveCall(lobbyId, characters, messages)]
    {
      HandleSend(input, None, now);
    }

    /**
     * `resolveTurn`: one action per character goes to the model. When the call
     * returns, the party is reset, exactly one message is appended, both are
     * saved and loading ends. When it throws (no key), loading stays on.
     */
    method ResolveTurn(b: Narrative.Backend) returns (thrown: Option<string>)
      modifies this
      ensures var r := Narrative.ResolveTurnAction(TurnActions(old(characters)), old(messages), b);
        match r
        case Failure(e) =>
          && thrown == Some(e) && isLoading
          && messages == old(messages) && characters == old(characters) && saves == old(saves)
        case Success(dm) =>
          && thrown.None? && !isLoading
          && characters == ResetAll(old(characters))
          && messages == old(messages) + [dm]
          && saves == old(saves) + [SaveCall(lobbyId, characters, messages)]
      ensures input == old(input) && location == old(location) && suggestedActions == old(suggestedActions)
    {
      var r := Narrative.ResolveTurnAction(TurnActions(characters), messages, b);
      isLoading := true;
      if r.Failure? {
        thrown := Some(r.error);
      } else {
        FinishTurn(r.value);
        thrown := None;
      }
    }

    /** The awaited reply arrived: reset the party, append the reply, save both, stop loading. */
    method FinishTurn(dm: Message)
      modifies this
      ensures characters == ResetAll(old(characters)) && messages == old(messages) + [dm]
      ensures saves == old(saves) + [SaveCall(lobbyId, characters, messages)]
      ensures !isLoading
      ensures input == old(input) && location == old(location) && suggestedActions == old(suggestedActions)
    {
      var resetParty := ResetAll(characters);
      var newMessages := messages + [dm];
      messages := newMessages;
      characters := resetParty;
      saves := saves + [SaveCall(lobbyId, resetParty, newMessages)];
      isLoading := false;
    }

    /** The resolution effect: only the leader, with everyone ready and nothing in flight. */
    method TurnEffect(b: Narrative.Backend) returns (thrown: Option<string>)
      modifies this
      ensures !old(ShouldResolve(characters, isLoading, userEmail)) ==> unchanged(this) && thrown.None?
      ensures old(ShouldResolve(characters, isLoading, userEmail)) ==>
        match Narrative.ResolveTurnAction(TurnActions(old(characters)), old(messages), b)
        case Failure(e) =>
          && thrown == Some(e) && isLoading
          && messages == old(messages) && characters == old(characters) && saves == old(saves)
        case Success(dm) =>
          && thrown.None? && !isLoading
          && characters == ResetAll(old(characters))
          && messages == old(messages) + [dm]
          && saves == old(saves) + [SaveCall(lobbyId, characters, messages)]
      ensures input == old(input) && location == old(location) && suggestedActions == old(suggestedActions)
    {
      thrown := None;
      if ShouldResolve(characters, isLoading, userEmail) {
        thrown := ResolveTurn(b);
      }
    }

    /** `addMessage`: append and save with the current party. */
    method AddMessage(msg: Message)
      modifies this
      ensures messages == old(messages) + [msg]
      ensures saves == old(saves) + [SaveCall(lobbyId, characters, messages)]
      ensures characters == old(characters) && isLoading == old(isLoading)
      ensures input == old(input) && location == old(location) && suggestedActions == old(suggestedActions)
    {
      var newMessages := messages + [msg];
      messages := newMessages;
      saves := saves + [SaveCall(lobbyId, characters, newMessages)];
    }

    /** `startCampaign`: the opening message is appended and saved; a throw leaves loading on. */
    method StartCampaign(b: Narrative.Backend) returns (thrown: Option<string>)
      modifies this
      ensures match Narrative.InitializeCampaignAction(old(characters), b)
        case Failure(e) =>
          && thrown == Some(e) && isLoading
          && messages == old(messages) && saves == old(saves)
        case Success(msg) =>
          && thrown.None? && !isLoading
          && messages == old(messages) + [msg]
          && saves == old(saves) + [SaveCall(lobbyId, characters, messages)]
      ensures characters == old(characters)
      ensures input == old(input) && location == old(location) && suggestedActions == old(suggestedActions)
    {
      isLoading := true;
      var r := Narrative.InitializeCampaignAction(characters, b);
      if r.Failure? {
        return Some(r.error);
      }
      AddMessage(r.value);
      isLoading := false;
      return None;
    }

    /** The campaign-start effect: the leader of a non-empty party with no messages yet. */
    method CampaignEffect(b: Narrative.Backend) returns (thrown: Option<string>)
      modifies this
      ensures !old(ShouldStartCampaign(messages, characters, userEmail)) ==> unchanged(this) && thrown.None?
      ensures old(ShouldStartCampaign(messages, characters, userEmail)) ==>
        match Narrative.InitializeCampaignAction(old(characters), b)
        case Failure(e) =>
          && thrown == Some(e) && isLoading
          && messages == old(messages) && saves == old(saves)
        case Success(msg) =>
          && thrown.None? && !isLoading
          && messages == [msg]
          && saves == old(saves) + [SaveCall(lobbyId, characters, messages)]
      ensures characters == old(characters)
      ensures input == old(input) && location == old(location) && suggestedActions == old(suggestedActions)
    {
      thrown := None;
      if ShouldStartCampaign(messages, characters, userEmail) {
        thrown := StartCampaign(b);
      }
    }

    /**
     * `handleDmUpdate`: a non-empty location replaces the current one, a list of
     * suggestions replaces the current list, and the leader saves the updated
     * party when it differs. The local roster itself is left as it is.
     */
    method HandleDmUpdate(st: DmState)
      modifies this
      ensures st.location.Some? && st.location.value != "" ==> location == st.location.value
      ensures st.location.None? || st.location.value == "" ==> location == old(location)
      ensures suggestedActions == (if st.suggestedActions.Some? then st.suggestedActions.value else old(suggestedActions))
      ensures IsLeader(characters, userEmail) && ApplyDelta(characters, st) != characters ==>
        saves == old(saves) + [SaveCall(lobbyId, ApplyDelta(characters, st), messages)]
      ensures !(IsLeader(characters, userEmail) && ApplyDelta(characters, st) != characters) ==>
        saves == old(saves)
      ensures characters == old(characters) && messages == old(messages)
      ensures isLoading == old(isLoading) && input == old(input)
    {
      if st.location.Some? && st.location.value != "" && st.location.value != location {
        location := st.location.value;
      }
      if st.suggestedActions.Some? {
        suggestedActions := st.suggestedActions.value;
      }
      if |characters| > 0 && characters[0].ownerEmail == userEmail {
        var newParty := ApplyDelta(characters, st);
        if newParty != characters {
          saves := saves + [SaveCall(lobbyId, newParty, messages)];
        }
      }
    }

    /** The effect on `messages`: the state carried by the last message, if any, is applied. */
    method MessagesEffect()
      modifies this
      ensures |messages| == 0 || messages[|messages| - 1].dmState.None? ==> unchanged(this)
      ensures |old(messages)| > 0 && old(messages)[|old(messages)| - 1].dmState.Some? ==>
        var st := old(messages)[|old(messages)| - 1].dmState.value;
        var changed := IsLeader(characters, userEmail) && ApplyDelta(characters, st) != characters;
        && location == (if st.location.Some? && st.location.value != "" then st.location.value else old(location))
        && suggestedActions == (if st.suggestedActions.Some? then st.suggestedActions.value else old(suggestedActions))
        && saves == (if changed then old(saves) + [SaveCall(lobbyId, ApplyDelta(characters, st), messages)] else old(saves))
      ensures characters == old(characters) && messages == old(messages) && isLoading == old(isLoading)
      ensures input == old(input)
    {
      if |messages| > 0 && messages[|messages| - 1].dmState.Some? {
        HandleDmUpdate(messages[|messages| - 1].dmState.value);
      }
    }

    /**
     * The realtime handler: the incoming messages win only when there are
     * strictly more of them; an incoming party always replaces the roster.
     */
    method OnRealtimeUpdate(newState: Option<GameState>)
      modifies this
      ensures newState.Some? && newState.value.messages.Some? && |newState.value.messages.value| > |old(messages)| ==>
        messages == newState.value.messages.value
      ensures !(newState.Some? && newState.value.messages.Some? && |newState.value.messages.value| > |old(messages)|) ==>
        messages == old(messages)
      ensures characters == (if newState.Some? && newState.value.party.Some? then newState.value.party.value else old(characters))
      ensures |messages| >= |old(messages)|
      ensures isLoading == old(isLoading) && saves == old(saves)
      ensures input == old(input) && location == old(location) && suggestedActions == old(suggestedActions)
    {
      if newState.Some? {
        var st := newState.value;
        if st.messages.Some? && |st.messages.value| > |messages| {
          messages := st.messages.value;
        }
        if st.party.Some? {
          characters := st.party.value;
        }
      }
    }
  }

  /**
   * One round from the leader's point of view: after the user's submission
   * completes the party, the trigger fires; after resolution it is disarmed.
   */
  lemma SubmissionThenResolution(chars: seq<Character>, user: string, action: string)
    requires |chars| > 0 && chars[0].ownerEmail == user
    requires forall i :: 0 <= i < |chars| && chars[i].ownerEmail != user ==> chars[i].isReady
    ensures ShouldResolve(MarkReady(chars, user, action), false, user)
    ensures !ShouldResolve(ResetAll(MarkReady(chars, user, action)), false, user)
  {
    MarkReadyCompletesTurn(chars, user, action);
    ResetDisarmsTrigger(MarkReady(chars, user, action));
  }
}
