// The top-level client of src/components/AetheriaApp.tsx: the login state,
// the lobby id and where it is restored from, the party gathered before the
// game starts, and which of the four screens is shown. Session storage is a
// field; the URL, the OAuth outcome and the server payloads are parameters;
// every `saveGame` call is appended to `saves`.

module App {
  import opened Types
  import Roster
  import TurnCoordinator

  /** JavaScript truthiness of an optional string: set and non-empty. */
  predicate Truthy(o: Option<string>) {
    o.Some? && o.value != ""
  }

  const MaxPartySize: nat := 4

  datatype Screen = Login | LobbyForm | PartyScreen | Game

  /**
   * The render branches, tried in order: not logged in, no lobby, the party
   * screen (no heroes yet, or no messages while no hero is being created and
   * the party is not full), and otherwise the game.
   */
  function ScreenOf(isLoggedIn: bool, lobbyId: Option<string>, party: seq<Character>,
                    messages: seq<Message>, isCreatingChar: bool): (s: Screen)
    ensures s == Login <==> !isLoggedIn
    ensures s == LobbyForm <==> isLoggedIn && !Truthy(lobbyId)
    ensures s == Game ==> |party| > 0 && (|messages| > 0 || isCreatingChar || |party| >= MaxPartySize)
  {
    if !isLoggedIn then Login
    else if !Truthy(lobbyId) then LobbyForm
    else if |party| == 0 || (|messages| == 0 && !isCreatingChar && |party| < MaxPartySize) then PartyScreen
    else Game
  }

  /** The "Create Hero" slot: room in the party and no character of the user's yet. */
  predicate CanCreateHero(party: seq<Character>, userEmail: Option<string>) {
    |party| < MaxPartySize && (userEmail.None? || Roster.MyCharacter(party, userEmail.value).None?)
  }

  /** No two heroes share an owner, and there are at most four of them. */
  predicate WellFormedParty(party: seq<Character>) {
    |party| <= MaxPartySize &&
    forall i, j :: 0 <= i < j < |party| ==> party[i].ownerEmail != party[j].ownerEmail
  }

  /** Where the lobby id comes from on load: the URL first, then the id kept across the login redirect. */
  function RestoredLobbyId(urlLobbyId: Option<string>, stored: Option<string>): (r: Option<string>)
    ensures Truthy(urlLobbyId) ==> r == urlLobbyId
    ensures !Truthy(urlLobbyId) && Truthy(stored) ==> r == stored
    ensures !Truthy(urlLobbyId) && !Truthy(stored) ==> r.None?
  {
    if Truthy(urlLobbyId) then urlLobbyId
    else if Truthy(stored) then stored
    else None
  }

  class AppState {
    var isLoggedIn: bool
    var userEmail: Option<string>
    var lobbyId: Option<string>
    var party: seq<Character>
    var messages: seq<Message>
    var isCreatingChar: bool
    var isLoading: bool
    var inputLobbyId: string
    /** The `pendingLobbyId` entry of session storage. */
    var pendingLobbyId: Option<string>
    /** The `saveGame(lobbyId, party, messages)` calls issued so far, oldest first. */
    var saves: seq<SaveCall>

    /** The initial state; `stored` is what session storage holds when the page loads. */
    constructor(stored: Option<string>)
      ensures !isLoggedIn && userEmail.None? && lobbyId.None?
      ensures party == [] && messages == []
      ensures !isCreatingChar && !isLoading && inputLobbyId == ""
      ensures pendingLobbyId == stored && saves == []
    {
      isLoggedIn := false;
      userEmail := None;
      lobbyId := None;
      party := [];
      messages := [];
      isCreatingChar := false;
      isLoading := false;
      inputLobbyId := "";
      pendingLobbyId := stored;
      saves := [];
    }

    function CurrentScreen(): (s: Screen)
      reads this
      ensures s == ScreenOf(isLoggedIn, lobbyId, party, messages, isCreatingChar)
    {
      ScreenOf(isLoggedIn, lobbyId, party, messages, isCreatingChar)
    }

    /**
     * The restore effect: a lobby id in the URL is taken as it is; otherwise a
     * stored one is taken and removed from storage. The form input follows.
     */
    method RestoreLobbyId(urlLobbyId: Option<string>)
      modifies this
      ensures Truthy(urlLobbyId) ==>
        lobbyId == urlLobbyId && inputLobbyId == urlLobbyId.value && pendingLobbyId == old(pendingLobbyId)
      ensures !Truthy(urlLobbyId) && Truthy(old(pendingLobbyId)) ==>
        lobbyId == old(pendingLobbyId) && inputLobbyId == old(pendingLobbyId).value && pendingLobbyId.None?
      ensures !Truthy(urlLobbyId) && !Truthy(old(pendingLobbyId)) ==>
        lobbyId == old(lobbyId) && inputLobbyId == old(inputLobbyId) && pendingLobbyId == old(pendingLobbyId)
      ensures Truthy(RestoredLobbyId(urlLobbyId, old(pendingLobbyId))) ==>
        lobbyId == RestoredLobbyId(urlLobbyId, old(pendingLobbyId))
      ensures isLoggedIn == old(isLoggedIn) && userEmail == old(userEmail)
      ensures party == old(party) && messages == old(messages) && saves == old(saves)
      ensures isCreatingChar == old(isCreatingChar) && isLoading == old(isLoading)
    {
      if Truthy(urlLobbyId) {
        lobbyId := urlLobbyId;
        inputLobbyId := urlLobbyId.value;
      } else if Truthy(pendingLobbyId) {
        lobbyId := pendingLobbyId;
        inputLobbyId := pendingLobbyId.value;
        pendingLobbyId := None;
      }
    }

    /** `handleUserAuthenticated`: a session with an e-mail logs the user in. */
    method HandleUserAuthenticated(email: string)
      modifies this
      ensures isLoggedIn && userEmail == Some(email)
      ensures lobbyId == old(lobbyId) && party == old(party) && messages == old(messages)
      ensures isCreatingChar == old(isCreatingChar) && isLoading == old(isLoading)
      ensures inputLobbyId == old(inputLobbyId) && pendingLobbyId == old(pendingLobbyId) && saves == old(saves)
    {
      isLoggedIn := true;
      userEmail := Some(email);
    }

    /** An auth change without a session logs the user out. */
    method HandleSignedOut()
      modifies this
      ensures !isLoggedIn && userEmail.None?
      ensures lobbyId == old(lobbyId) && party == old(party) && messages == old(messages)
      ensures isCreatingChar == old(isCreatingChar) && isLoading == old(isLoading)
      ensures inputLobbyId == old(inputLobbyId) && pendingLobbyId == old(pendingLobbyId) && saves == old(saves)
    {
      isLoggedIn := false;
      userEmail := None;
    }

    /**
     * `handleGoogleLogin`: the current lobby id, or else the typed one, is kept
     * in storage for after the redirect. Loading stays on unless the OAuth
     * call reports an error.
     */
    method HandleGoogleLogin(oauthFailed: bool)
      modifies this
      ensures Truthy(old(lobbyId)) ==> pendingLobbyId == old(lobbyId)
      ensures !Truthy(old(lobbyId)) && old(inputLobbyId) != "" ==> pendingLobbyId == Some(old(inputLobbyId))
      ensures !Truthy(old(lobbyId)) && old(inputLobbyId) == "" ==> pendingLobbyId == old(pendingLobbyId)
      ensures isLoading == !oauthFailed
      ensures isLoggedIn == old(isLoggedIn) && userEmail == old(userEmail) && lobbyId == old(lobbyId)
      ensures party == old(party) && messages == old(messages) && saves == old(saves)
      ensures isCreatingChar == old(isCreatingChar) && inputLobbyId == old(inputLobbyId)
    {
      isLoading := true;
      if Truthy(lobbyId) {
        pendingLobbyId := lobbyId;
      } else if inputLobbyId != "" {
        pendingLobbyId := Some(inputLobbyId);
      }
      if oauthFailed {
        isLoading := false;
      }
    }

    /** `handleJoinLobby`: an empty input does nothing; otherwise it becomes the lobby id. */
    method HandleJoinLobby()
      modifies this
      ensures old(inputLobbyId) == "" ==> unchanged(this)
      ensures old(inputLobbyId) != "" ==> lobbyId == Some(old(inputLobbyId)) && !isLoading
      ensures isLoggedIn == old(isLoggedIn) && userEmail == old(userEmail)
      ensures party == old(party) && messages == old(messages) && saves == old(saves)
      ensures isCreatingChar == old(isCreatingChar) && inputLobbyId == old(inputLobbyId)
      ensures pendingLobbyId == old(pendingLobbyId)
    {
      if inputLobbyId == "" {
        return;
      }
      isLoading := true;
      lobbyId := Some(inputLobbyId);
      isLoading := false;
    }

    /** The lobby form's text field. */
    method SetInputLobbyId(text: string)
      modifies this
      ensures inputLobbyId == text
      ensures isLoggedIn == old(isLoggedIn) && userEmail == old(userEmail) && lobbyId == old(lobbyId)
      ensures party == old(party) && messages == old(messages) && saves == old(saves)
      ensures isCreatingChar == old(isCreatingChar) && isLoading == old(isLoading)
      ensures pendingLobbyId == old(pendingLobbyId)
    {
      inputLobbyId := text;
    }

    /**
     * Load and realtime updates: a payload replaces the party and the messages
     * wholesale, a missing list counting as empty; no payload changes nothing.
     */
    method ApplyServerState(st: Option<TurnCoordinator.GameState>)
      modifies this
      ensures st.Some? ==> party == st.value.party.GetOr([]) && messages == st.value.messages.GetOr([])
      ensures st.None? ==> party == old(party) && messages == old(messages)
      ensures isLoggedIn == old(isLoggedIn) && userEmail == old(userEmail) && lobbyId == old(lobbyId)
      ensures isCreatingChar == old(isCreatingChar) && isLoading == old(isLoading)
      ensures inputLobbyId == old(inputLobbyId) && pendingLobbyId == old(pendingLobbyId) && saves == old(saves)
    {
      if st.Some? {
        party := st.value.party.GetOr([]);
        messages := st.value.messages.GetOr([]);
      }
    }

    /** The sync effect: the lobby is loaded only when logged in with a lobby id. */
    method LobbySyncEffect(loaded: Option<TurnCoordinator.GameState>)
      modifies this
      ensures !Truthy(old(lobbyId)) || !old(isLoggedIn) ==> unchanged(this)
      ensures Truthy(old(lobbyId)) && old(isLoggedIn) && loaded.Some? ==>
        party == loaded.value.party.GetOr([]) && messages == loaded.value.messages.GetOr([])
      ensures loaded.None? ==> party == old(party) && messages == old(messages)
      ensures lobbyId == old(lobbyId) && isLoggedIn == old(isLoggedIn) && userEmail == old(userEmail)
      ensures isCreatingChar == old(isCreatingChar) && isLoading == old(isLoading)
      ensures inputLobbyId == old(inputLobbyId) && pendingLobbyId == old(pendingLobbyId) && saves == old(saves)
    {
      if !Truthy(lobbyId) || !isLoggedIn {
        return;
      }
      ApplyServerState(loaded);
    }

    /**
     * `addCharacter`: the new hero goes at the end, the creator closes, and the
     * new party is saved with the current messages when there is a lobby id.
     */
    method AddCharacter(c: Character)
      modifies this
      ensures party == old(party) + [c] && !isCreatingChar
      ensures Truthy(lobbyId) ==> saves == old(saves) + [SaveCall(lobbyId.value, party, messages)]
      ensures !Truthy(lobbyId) ==> saves == old(saves)
      ensures forall i :: 0 <= i < |old(party)| ==> party[i] == old(party)[i]
      ensures isLoggedIn == old(isLoggedIn) && userEmail == old(userEmail) && lobbyId == old(lobbyId)
      ensures messages == old(messages) && isLoading == old(isLoading)
      ensures inputLobbyId == old(inputLobbyId) && pendingLobbyId == old(pendingLobbyId)
    {
      var newParty := party + [c];
      party := newParty;
      isCreatingChar := false;
      if Truthy(lobbyId) {
        saves := saves + [SaveCall(lobbyId.value, newParty, messages)];
      }
    }

    /** The "Create Hero" button, which is only there on the party screen when the slot is offered. */
    method ClickCreateHero()
      modifies this
      ensures old(CurrentScreen()) == PartyScreen && CanCreateHero(party, userEmail) ==> isCreatingChar
      ensures !(old(CurrentScreen()) == PartyScreen && CanCreateHero(party, userEmail)) ==> unchanged(this)
      ensures isLoggedIn == old(isLoggedIn) && userEmail == old(userEmail) && lobbyId == old(lobbyId)
      ensures party == old(party) && messages == old(messages) && saves == old(saves)
      ensures isLoading == old(isLoading) && inputLobbyId == old(inputLobbyId)
      ensures pendingLobbyId == old(pendingLobbyId)
    {
      if CurrentScreen() == PartyScreen && CanCreateHero(party, userEmail) {
        isCreatingChar := true;
      }
    }

    /** The creator's cancel button; the creator is drawn only over the party screen. */
    method CancelCreator()
      modifies this
      ensures old(CurrentScreen()) == PartyScreen && old(isCreatingChar) ==> !isCreatingChar
      ensures !(old(CurrentScreen()) == PartyScreen && old(isCreatingChar)) ==> unchanged(this)
      ensures isLoggedIn == old(isLoggedIn) && userEmail == old(userEmail) && lobbyId == old(lobbyId)
      ensures party == old(party) && messages == old(messages) && saves == old(saves)
      ensures isLoading == old(isLoading) && inputLobbyId == old(inputLobbyId)
      ensures pendingLobbyId == old(pendingLobbyId)
    {
      if CurrentScreen() == PartyScreen && isCreatingChar {
        isCreatingChar := false;
      }
    }

    /**
     * "Venture Forth", shown on the party screen once there are heroes: the
     * messages are set to the empty list, which they already are there.
     */
    method VentureForth()
      modifies this
      ensures old(CurrentScreen()) == PartyScreen && |old(party)| > 0 ==> messages == []
      ensures !(old(CurrentScreen()) == PartyScreen && |old(party)| > 0) ==> unchanged(this)
      ensures messages == old(messages)
      ensures isLoggedIn == old(isLoggedIn) && userEmail == old(userEmail) && lobbyId == old(lobbyId)
      ensures party == old(party) && saves == old(saves) && isCreatingChar == old(isCreatingChar)
      ensures isLoading == old(isLoading) && inputLobbyId == old(inputLobbyId)
      ensures pendingLobbyId == old(pendingLobbyId)
    {
      if CurrentScreen() == PartyScreen && |party| > 0 {
        VentureForthKeepsMessages(lobbyId, party, messages, isCreatingChar);
        messages := [];
      }
    }
  }

  // ---------------------------------------------------------------- properties

  /** A lobby id from the URL or from storage leads past the lobby form once logged in. */
  lemma RestoredLobbySkipsForm(urlLobbyId: Option<string>, stored: Option<string>,
                               party: seq<Character>, messages: seq<Message>, creating: bool)
    requires Truthy(urlLobbyId) || Truthy(stored)
    ensures var s := ScreenOf(true, RestoredLobbyId(urlLobbyId, stored), party, messages, creating);
      s == PartyScreen || s == Game
  {
  }

  /** The party screen is only left with heroes in the party. */
  lemma GameNeedsHeroes(lobbyId: Option<string>, party: seq<Character>, messages: seq<Message>, creating: bool)
    requires ScreenOf(true, lobbyId, party, messages, creating) == Game
    ensures |party| > 0
  {
  }

  /**
   * While heroes are gathered on the party screen there are no messages yet,
   * so "Venture Forth" sets an empty list to an empty list.
   */
  lemma VentureForthKeepsMessages(lobbyId: Option<string>, party: seq<Character>, messages: seq<Message>, creating: bool)
    requires ScreenOf(true, lobbyId, party, messages, creating) == PartyScreen && |party| > 0
    ensures messages == []
  {
  }

  /**
   * Opening the creator with heroes already in the party and no messages
   * leaves the party screen for the game screen.
   */
  lemma CreatorWithHeroesShowsGame(lobbyId: Option<string>, party: seq<Character>, messages: seq<Message>)
    requires Truthy(lobbyId) && |party| > 0 && messages == []
    ensures ScreenOf(true, lobbyId, party, messages, false) == PartyScreen <==> |party| < MaxPartySize
    ensures ScreenOf(true, lobbyId, party, messages, true) == Game
  {
  }

  /** The slot is offered exactly when there is room and the user owns no hero. */
  lemma CanCreateHeroIff(party: seq<Character>, user: string)
    ensures CanCreateHero(party, Some(user)) <==>
      |party| < MaxPartySize && forall i :: 0 <= i < |party| ==> party[i].ownerEmail != user
  {
  }

  /**
   * A hero made through the slot keeps the party well formed (at most four,
   * one per owner), and the slot is then closed for that user.
   */
  lemma AddThroughGateKeepsParty(party: seq<Character>, c: Character)
    requires WellFormedParty(party) && CanCreateHero(party, Some(c.ownerEmail))
    ensures WellFormedParty(party + [c])
    ensures !CanCreateHero(party + [c], Some(c.ownerEmail))
    ensures Roster.MyCharacter(party + [c], c.ownerEmail) == Some(|party|)
  {
    var p := party + [c];
    forall i, j | 0 <= i < j < |p| ensures p[i].ownerEmail != p[j].ownerEmail {
      if j == |party| {
        assert p[i] == party[i];
      }
    }
    assert p[|party|].ownerEmail == c.ownerEmail;
  }

  /** Appending keeps the first hero first, so the leader never changes by joining. */
  lemma AddKeepsLeader(party: seq<Character>, c: Character, user: string)
    requires |party| > 0
    ensures Roster.IsLeader(party + [c], user) <==> Roster.IsLeader(party, user)
  {
    assert (party + [c])[0] == party[0];
  }
}
