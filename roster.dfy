// The pure rules of the turn protocol in src/components/GameInterface.tsx:
// who may act, what submitting does to the roster, who triggers resolution,
// how a turn is reset, and how a Dungeon Master state update is applied.

module Roster {
  import opened Types
  import opened Text
  import GameUtils
  import Narrative

  // ---------------------------------------------------------------- name matching

  /** The one matcher of the update rule: the lower-cased name contains the lower-cased key. */
  predicate NameMatches(name: string, key: string) {
    Contains(ToLower(name), ToLower(key))
  }

  /** `Object.keys(updates).find(k => matches(name, k))`, searched from entry `i` on. */
  function FirstMatchFrom<V>(entries: seq<(string, V)>, name: string, i: nat): (r: Option<nat>)
    requires i <= |entries|
    ensures r.Some? ==> i <= r.value < |entries| && NameMatches(name, entries[r.value].0)
    ensures r.Some? ==> forall j :: i <= j < r.value ==> !NameMatches(name, entries[j].0)
    ensures r.None? ==> forall j :: i <= j < |entries| ==> !NameMatches(name, entries[j].0)
    decreases |entries| - i
  {
    if i == |entries| then None
    else if NameMatches(name, entries[i].0) then Some(i)
    else FirstMatchFrom(entries, name, i + 1)
  }

  /** The index of the first key that matches `name`. */
  function FirstMatch<V>(entries: seq<(string, V)>, name: string): (r: Option<nat>)
    ensures r.Some? ==> r.value < |entries| && NameMatches(name, entries[r.value].0)
    ensures r.Some? ==> forall j :: 0 <= j < r.value ==> !NameMatches(name, entries[j].0)
    ensures r.None? <==> forall j :: 0 <= j < |entries| ==> !NameMatches(name, entries[j].0)
  {
    FirstMatchFrom(entries, name, 0)
  }

  /**
   * The value the update assigns to `name`: the one under the first matching
   * key, unless that key is empty (`if (hpKey)` treats "" as no key).
   */
  function Lookup<V>(entries: seq<(string, V)>, name: string): (r: Option<V>)
    ensures r.Some? <==> FirstMatch(entries, name).Some? && entries[FirstMatch(entries, name).value].0 != ""
    ensures r.Some? ==> r.value == entries[FirstMatch(entries, name).value].1
  {
    match FirstMatch(entries, name)
    case None => None
    case Some(k) => if entries[k].0 != "" then Some(entries[k].1) else None
  }

  /** Every name contains itself, whatever its case. */
  lemma NameMatchesItself(name: string)
    ensures NameMatches(name, name)
  {
    assert StartsAt(ToLower(name), 0, ToLower(name)) by {
      assert ToLower(name)[0..|ToLower(name)|] == ToLower(name);
    }
  }

  /** An empty key matches every name, so it hides every key after it. */
  lemma EmptyKeyMatchesAll(name: string)
    ensures NameMatches(name, "")
  {
    assert StartsAt(ToLower(name), 0, ToLower(""));
  }

  // ---------------------------------------------------------------- state update

  /**
   * One character under `handleDmUpdate`: HP becomes exactly the value under the
   * first matching key (no clamping), the inventory is replaced wholesale by the
   * list under the first matching key, and nothing else changes.
   */
  function ApplyToCharacter(c: Character, st: DmState): (r: Character)
    ensures r.(hp := c.hp, inventory := c.inventory) == c
    ensures Lookup(st.hpUpdates, c.name).Some? ==> r.hp == Lookup(st.hpUpdates, c.name).value
    ensures Lookup(st.hpUpdates, c.name).None? ==> r.hp == c.hp
    ensures Lookup(st.inventoryUpdates, c.name).Some? ==> r.inventory == Lookup(st.inventoryUpdates, c.name).value
    ensures Lookup(st.inventoryUpdates, c.name).None? ==> r.inventory == c.inventory
  {
    var withHp := match Lookup(st.hpUpdates, c.name)
      case Some(v) => c.(hp := v)
      case None => c;
    match Lookup(st.inventoryUpdates, c.name)
    case Some(inv) => withHp.(inventory := inv)
    case None => withHp
  }

  /** `characters.map(...)`: the new party the leader would save. */
  function ApplyDelta(chars: seq<Character>, st: DmState): (r: seq<Character>)
    ensures |r| == |chars|
    ensures forall i :: 0 <= i < |chars| ==> r[i] == ApplyToCharacter(chars[i], st)
  {
    seq(|chars|, i requires 0 <= i < |chars| => ApplyToCharacter(chars[i], st))
  }

  /** A character whose name matches no key keeps its HP and inventory. */
  lemma NoMatchUnchanged(c: Character, st: DmState)
    requires forall j :: 0 <= j < |st.hpUpdates| ==> !NameMatches(c.name, st.hpUpdates[j].0)
    requires forall j :: 0 <= j < |st.inventoryUpdates| ==> !NameMatches(c.name, st.inventoryUpdates[j].0)
    ensures ApplyToCharacter(c, st) == c
  {
  }

  /** A key naming the character exactly, listed first, sets its HP to that value. */
  lemma HpSetExactly(c: Character, v: int, rest: seq<(string, int)>, st: DmState)
    requires c.name != ""
    requires st.hpUpdates == [(c.name, v)] + rest
    ensures ApplyToCharacter(c, st).hp == v
  {
    NameMatchesItself(c.name);
    assert FirstMatch(st.hpUpdates, c.name) == Some(0);
  }

  /** A leading empty key blocks every HP update: it is found first and is falsy. */
  lemma EmptyKeyShadows(c: Character, v: int, rest: seq<(string, int)>, st: DmState)
    requires st.hpUpdates == [("", v)] + rest
    ensures ApplyToCharacter(c, st).hp == c.hp
  {
    EmptyKeyMatchesAll(c.name);
    assert FirstMatch(st.hpUpdates, c.name) == Some(0);
  }

  /** An update without HP or inventory entries changes nobody. */
  lemma EmptyDeltaIdentity(chars: seq<Character>, st: DmState)
    requires st.hpUpdates == [] && st.inventoryUpdates == []
    ensures ApplyDelta(chars, st) == chars
  {
    assert forall i :: 0 <= i < |chars| ==> ApplyDelta(chars, st)[i] == chars[i];
  }

  /** Applying the same update twice is applying it once: the values are absolute. */
  lemma ApplyDeltaIdempotent(chars: seq<Character>, st: DmState)
    ensures ApplyDelta(ApplyDelta(chars, st), st) == ApplyDelta(chars, st)
  {
    var once := ApplyDelta(chars, st);
    forall i | 0 <= i < |chars|
      ensures ApplyToCharacter(once[i], st) == once[i]
    {
      assert once[i].name == chars[i].name;
    }
  }

  /** The update keeps the roster's order, names, owners and turn state, hence the leader. */
  lemma ApplyDeltaKeepsRoster(chars: seq<Character>, st: DmState)
    ensures var r := ApplyDelta(chars, st);
      forall i :: 0 <= i < |chars| ==>
        r[i].id == chars[i].id && r[i].name == chars[i].name && r[i].ownerEmail == chars[i].ownerEmail
        && r[i].isReady == chars[i].isReady && r[i].pendingAction == chars[i].pendingAction
  {
  }

  // ---------------------------------------------------------------- acting and readiness

  /** `characters.find(c => c.ownerEmail === userEmail)`, as an index. */
  function MyCharacter(chars: seq<Character>, user: string): (r: Option<nat>)
    ensures r.Some? ==> r.value < |chars| && chars[r.value].ownerEmail == user
    ensures r.Some? ==> forall j :: 0 <= j < r.value ==> chars[j].ownerEmail != user
    ensures r.None? <==> forall j :: 0 <= j < |chars| ==> chars[j].ownerEmail != user
    decreases |chars|
  {
    if |chars| == 0 then None
    else if chars[0].ownerEmail == user then Some(0)
    else match MyCharacter(chars[1..], user)
      case None => None
      case Some(k) => Some(k + 1)
  }

  /** `canAct`: the user's first character exists and is not ready, and no turn is being resolved. */
  predicate CanAct(chars: seq<Character>, user: string, isLoading: bool) {
    MyCharacter(chars, user).Some? && !chars[MyCharacter(chars, user).value].isReady && !isLoading
  }

  predicate OwnsAtMostOne(chars: seq<Character>, user: string) {
    forall i, j :: 0 <= i < j < |chars| && chars[i].ownerEmail == user ==> chars[j].ownerEmail != user
  }

  /**
   * A user with one character may act exactly when that character is not ready
   * and nothing is in flight.
   */
  lemma CanActIff(chars: seq<Character>, user: string, isLoading: bool)
    requires OwnsAtMostOne(chars, user)
    ensures CanAct(chars, user, isLoading) <==>
      !isLoading && exists i :: 0 <= i < |chars| && chars[i].ownerEmail == user && !chars[i].isReady
  {
    if !isLoading && exists i :: 0 <= i < |chars| && chars[i].ownerEmail == user && !chars[i].isReady {
      var i :| 0 <= i < |chars| && chars[i].ownerEmail == user && !chars[i].isReady;
      var k := MyCharacter(chars, user).value;
      assert k == i;
    }
  }

  /** `rollResult ? `${actionText} [Dice: ${rollResult}]` : actionText` */
  function FullAction(actionText: string, rollResult: Option<string>): (r: string)
    ensures |r| >= |actionText| && r[..|actionText|] == actionText
    ensures rollResult.None? || rollResult.value == "" ==> r == actionText
    ensures rollResult.Some? && rollResult.value != "" ==>
      r[|actionText|..] == " [Dice: " + rollResult.value + "]"
  {
    if rollResult.Some? && rollResult.value != "" then actionText + " [Dice: " + rollResult.value + "]"
    else actionText
  }

  /** The optimistic roster of `handleSend`: the user's characters become ready with the action. */
  function MarkReady(chars: seq<Character>, user: string, action: string): (r: seq<Character>)
    ensures |r| == |chars|
    ensures forall i :: 0 <= i < |chars| && chars[i].ownerEmail == user ==>
      r[i] == chars[i].(isReady := true, pendingAction := Some(action))
    ensures forall i :: 0 <= i < |chars| && chars[i].ownerEmail != user ==> r[i] == chars[i]
  {
    seq(|chars|, i requires 0 <= i < |chars| =>
      if chars[i].ownerEmail == user then chars[i].(isReady := true, pendingAction := Some(action))
      else chars[i])
  }

  /** After submitting, the user cannot act again until the turn is reset. */
  lemma MarkReadyBlocksUser(chars: seq<Character>, user: string, action: string, isLoading: bool)
    ensures !CanAct(MarkReady(chars, user, action), user, isLoading)
  {
    var r := MarkReady(chars, user, action);
    if MyCharacter(r, user).Some? {
      assert r[MyCharacter(r, user).value].isReady;
    }
  }

  /** Submitting completes the turn exactly when every other player's characters were ready. */
  lemma MarkReadyCompletesTurn(chars: seq<Character>, user: string, action: string)
    ensures GameUtils.CheckAllPlayersReady(MarkReady(chars, user, action)) <==>
      |chars| > 0 && forall i :: 0 <= i < |chars| && chars[i].ownerEmail != user ==> chars[i].isReady
  {
    var r := MarkReady(chars, user, action);
    if |chars| > 0 && forall i :: 0 <= i < |chars| && chars[i].ownerEmail != user ==> chars[i].isReady {
      assert forall i :: 0 <= i < |r| ==> r[i].isReady;
    }
    if GameUtils.CheckAllPlayersReady(r) {
      forall i | 0 <= i < |chars| && chars[i].ownerEmail != user ensures chars[i].isReady {
        assert r[i].isReady;
      }
    }
  }

  /** The reset of `resolveTurn`: nobody is ready and no action is pending; nothing else changes. */
  function ResetAll(chars: seq<Character>): (r: seq<Character>)
    ensures |r| == |chars|
    ensures forall i :: 0 <= i < |chars| ==> r[i] == chars[i].(isReady := false, pendingAction := None)
  {
    seq(|chars|, i requires 0 <= i < |chars| => chars[i].(isReady := false, pendingAction := None))
  }

  /** After a reset the trigger is off, so the same turn is not resolved twice. */
  lemma ResetDisarmsTrigger(chars: seq<Character>)
    requires |chars| > 0
    ensures !GameUtils.CheckAllPlayersReady(ResetAll(chars))
  {
    assert !ResetAll(chars)[0].isReady;
  }

  /** After a reset every player with a character may act again once loading ends. */
  lemma ResetReopensTurn(chars: seq<Character>, user: string)
    requires exists i :: 0 <= i < |chars| && chars[i].ownerEmail == user
    ensures CanAct(ResetAll(chars), user, false)
  {
    var r := ResetAll(chars);
    var i :| 0 <= i < |chars| && chars[i].ownerEmail == user;
    assert r[i].ownerEmail == user;
  }

  /** The roster invariant the protocol keeps: ready exactly when an action is pending. */
  predicate ReadyConsistent(chars: seq<Character>) {
    forall i :: 0 <= i < |chars| ==> (chars[i].isReady <==> chars[i].pendingAction.Some?)
  }

  lemma ProtocolKeepsReadyConsistent(chars: seq<Character>, user: string, action: string, st: DmState)
    requires ReadyConsistent(chars)
    ensures ReadyConsistent(MarkReady(chars, user, action))
    ensures ReadyConsistent(ResetAll(chars))
    ensures ReadyConsistent(ApplyDelta(chars, st))
  {
    ApplyDeltaKeepsRoster(chars, st);
  }

  // ---------------------------------------------------------------- resolution

  const Hesitates: string := "No hace nada, duda."

  /** `c.pendingAction || "No hace nada, duda."`: an empty action counts as none. */
  function ActionOf(c: Character): string {
    if c.pendingAction.Some? && c.pendingAction.value != "" then c.pendingAction.value else Hesitates
  }

  /** The actions `resolveTurn` sends: one per character, in roster order, without a roll. */
  function TurnActions(chars: seq<Character>): (r: seq<Narrative.ActionItem>)
    ensures |r| == |chars|
    ensures forall i :: 0 <= i < |chars| ==>
      r[i].characterName == chars[i].name && r[i].roll.None?
      && (chars[i].pendingAction.Some? && chars[i].pendingAction.value != "" ==> r[i].action == chars[i].pendingAction.value)
      && (chars[i].pendingAction.None? || chars[i].pendingAction.value == "" ==> r[i].action == Hesitates)
  {
    seq(|chars|, i requires 0 <= i < |chars| => Narrative.ActionItem(chars[i].name, ActionOf(chars[i]), None))
  }

  predicate IsLeader(chars: seq<Character>, user: string) {
    |chars| > 0 && chars[0].ownerEmail == user
  }

  /** The guard of the resolution effect. */
  predicate ShouldResolve(chars: seq<Character>, isLoading: bool, user: string) {
    |chars| > 0 && GameUtils.CheckAllPlayersReady(chars) && !isLoading && IsLeader(chars, user)
  }

  /** The guard of the campaign-start effect; unlike resolution it ignores `isLoading`. */
  predicate ShouldStartCampaign(messages: seq<Message>, chars: seq<Character>, user: string) {
    |messages| == 0 && IsLeader(chars, user)
  }

  /** Of the clients sharing one roster, only the leader's resolves the turn. */
  lemma OnlyLeaderResolves(chars: seq<Character>, isLoading: bool, user: string)
    requires ShouldResolve(chars, isLoading, user)
    ensures user == chars[0].ownerEmail
    ensures forall other :: other != user ==> !ShouldResolve(chars, isLoading, other)
  {
  }

  /** When the trigger fires nobody can submit: every character is ready. */
  lemma ResolvingMeansNobodyActs(chars: seq<Character>, isLoading: bool, user: string, anyone: string)
    requires ShouldResolve(chars, isLoading, user)
    ensures !CanAct(chars, anyone, isLoading)
  {
    if MyCharacter(chars, anyone).Some? {
      var k := MyCharacter(chars, anyone).value;
      assert chars[k].isReady;
    }
  }
}
