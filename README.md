# Aetheria RPG client core, modelled in Dafny

This project models the client-side turn protocol of the Aetheria multiplayer
RPG and the pure helpers around it, and proves properties of the model. The
players of a lobby submit actions. The party leader, the owner of the first
character, sends them to the text model acting as Dungeon Master. The reply
comes back as one chat message, and the leader applies the state update it
carries to the roster.

The modules follow the program's files:

| module | file | source |
|---|---|---|
| `Types` | types.dfy | `src/types/index.ts`: characters, messages, the Dungeon Master state update |
| `Text` | text.dfy | the JavaScript string operations the code relies on (`trim`, `toLowerCase`, `includes`, `indexOf`, `join`, `String(n)`) |
| `GameUtils` | game_utils.dfy | `src/lib/gameUtils.ts`: `rollDice`, `checkAllPlayersReady`, the document `saveGame` writes, the `getUserLobbies` filter |
| `Narrative` | narrative.dfy | `src/app/actions.ts`: `parseResponse`, `mapHistoryToContent`, the prompt builders, the error fallbacks, the image part scan |
| `Roster` | roster.dfy | the pure roster rules of `src/components/GameInterface.tsx`: `canAct`, marking ready, the reset, the leader guard, the state update |
| `TurnCoordinator` | turn_coordinator.dfy | the state of `GameInterface` as a class `GameSession` whose methods are the handlers and effects |
| `Markdown` | markdown.dfy | `renderMarkdown` of `GameInterface.tsx` |
| `PointBuy` | point_buy.dfy | `src/components/CharacterCreator.tsx`: the point-buy table of the D&D 5e Player's Handbook (chapter 1), the stat changes, the randomiser, the new character |
| `AudioUtils` | wav.dfy | `src/lib/audioUtils.ts`: the byte loop and the 44-byte RIFF WAVE header of `pcmToWav`, and `writeString` |
| `App` | app.dfy | `src/components/AetheriaApp.tsx`: login, the lobby id and where it is restored from, the party screen, which screen is shown |

How the model is built:
- State the source changes in place is a class: `TurnCoordinator.GameSession`,
  `PointBuy.Creator` and `App.AppState`. Each handler is a method with a
  `modifies` clause, and its `ensures` gives the whole new state.
- `saveGame` calls are not performed. Each call is appended to a `saves` field
  as a `SaveCall(lobbyId, party, messages)`.
- Awaited calls are inputs. The text model, `JSON.parse` and `Date.now()` come
  in a `Narrative.Backend` value. Dice faces are a sequence of draws. The
  randomiser's stat choices are a function from iteration number to stat.
- A missing `GEMINI_API_KEY` makes `getAI()` throw before the `try`. That
  outcome is the `Failure` case of a `Result`, and the callers leave
  `isLoading` on, as the rejected promise does.
- The WAV header is written into a 44-element `array` by `SetUint32`,
  `SetUint16` and `WriteString`, as `DataView` does. `setUint32` and
  `setUint16` keep the value modulo 2^32 and 2^16.
- JavaScript truthiness is spelled out wherever the code relies on it. An empty
  string counts as absent in `pendingAction || ...`, `if (hpKey)`,
  `rollResult ? ... : ...`, `if (urlLobbyId)`, `if (!inputLobbyId)` and
  `if (!text)`.

Where the specification of the system and the code disagree, the model follows
the code:
- The state update has only `hpUpdates`, a wholesale `inventoryUpdates`
  replacement, `location`, `suggestedActions` and `isCombat`. Items,
  equipment slots, item grants and removals, and diff-style inventory merging
  do not exist in the code.
- `handleDmUpdate` does not change the local roster. The leader only saves the
  updated party, and only when it differs from the current one. The local
  roster changes when the realtime echo of that save arrives.
- A missing API key is not turned into a `system` message. `getAI()` runs
  outside the `try`, so the action throws.
- `resolveTurnAction` sends the whole mapped history. There is no 10- or
  20-message window and no long-term summary.
- `canAct` looks at the user's first character (`find`), not at any character
  the user owns. `Roster.CanActIff` shows the two agree when a user owns at
  most one character.
- A matching key that is the empty string blocks the update (`if (hpKey)` is
  false for `""`), even though `""` matches every name
  (`Roster.EmptyKeyShadows`).

## Model

| member | source | states |
|---|---|---|
| GameUtils.CheckAllPlayersReady | src/lib/gameUtils.ts:35-38 | true exactly when the party is non-empty and every member is ready |
| GameUtils.FindDice | src/lib/gameUtils.ts:6-7 | the match `dice.match` finds is the leftmost position where `(\d+)d(\d+)([+-]\d+)?` matches; none means no position matches |
| GameUtils.RollDice | src/lib/gameUtils.ts:4-33 | the loop records the first N supplied draws; the total is their sum plus the modifier, the details are `dice -> [r1+...+rN]` and the modifier suffix; without a match, one d20 draw and `d20 (v)` |
| GameUtils.RollWithinBounds | src/lib/gameUtils.ts:19-28 | with every face in [1, S], an `NdS±M` total lies in [N+M, N·S+M] |
| GameUtils.FallbackIsOneD20 | src/lib/gameUtils.ts:9-13 | a formula with no `NdS` yields a total in [1, 20] shown as `d20 (total)` |
| GameUtils.DetailsListEveryDraw | src/lib/gameUtils.ts:30 | the bracketed list splits on `+` back into exactly one number per die |
| GameUtils.TwoD6PlusThree | src/lib/gameUtils.ts:4-32 | `2d6+3` parses as two d6 plus 3 and totals between 5 and 15 |
| GameUtils.LastN | src/lib/gameUtils.ts:60 | `slice(-n)`: the last min(n, length) elements, a suffix of the input |
| GameUtils.SaveDocument | src/lib/gameUtils.ts:58-62 | the party unchanged, the last min(100, n) messages in their order, the given timestamp |
| GameUtils.SaveDocumentStable | src/lib/gameUtils.ts:60 | saving a saved document again keeps its messages |
| GameUtils.UserLobbies | src/lib/gameUtils.ts:116-123 | keeps exactly the rows whose party is an array holding a character of the user |
| GameUtils.UserLobbiesAppend | src/lib/gameUtils.ts:116-123 | the filter distributes over concatenation, so it keeps the original order |
| Narrative.CloseFrom | src/app/actions.ts:45 | the lazy group ends at a position followed by optional whitespace and a closing fence |
| Narrative.CloseFromFirst | src/app/actions.ts:45 | the lazy group is the shortest: no earlier position closes |
| Narrative.CloseFromFinds | src/app/actions.ts:45 | any closing position after the start is found or preceded by the one found |
| Narrative.FenceAt | src/app/actions.ts:45 | a match at a position spans the opening fence, the group and the closing fence, in order |
| Narrative.FenceAtEnds | src/app/actions.ts:45 | a match opens with ```` ```json ```` at its start and ends with a closing fence, at least ten characters later |
| Narrative.FenceAtShape | src/app/actions.ts:45 | the match opens with ```` ```json ````, closes with ```` ``` ````, only whitespace separates the group from either, and the group does not end in whitespace |
| Narrative.FenceAtMatches | src/app/actions.ts:45 | an opening fence followed anywhere later by a closing fence always matches |
| Narrative.FindFence | src/app/actions.ts:46 | `rawText.match(jsonRegex)`: a match found is the match at its start position |
| Narrative.FindFenceLeftmost | src/app/actions.ts:46 | the match found is the leftmost; when none is found no position matches |
| Narrative.FindFenceAt | src/app/actions.ts:46 | a match with no match before it is the one found |
| Narrative.ReplaceRemovesMatch | src/app/actions.ts:54 | the first occurrence of the matched text is the match itself |
| Narrative.RemoveMatch | src/app/actions.ts:54 | `replace(match[0], '')` leaves exactly the text before and after the match |
| Narrative.CopyOfMatchMatches | src/app/actions.ts:45 | wherever the text of a match occurs again, the expression matches there too |
| Narrative.ParseResponse | src/app/actions.ts:44-66 | never fails, sender is `dm`; no block or an undecodable block leaves the raw text untouched and no state; a decoded block gives that state and the text without the block, trimmed |
| Narrative.WellFormedReplyParses | src/app/actions.ts:44-66 | a reply laid out as the system instruction asks (story, then one ```` ```json ```` block) yields the trimmed story and the decoded block |
| Narrative.WellFormedFence | src/app/actions.ts:45 | in such a reply the expression matches at the opening fence, the group being exactly the block |
| Narrative.MapHistoryToContent | src/app/actions.ts:69-76 | at most one content per message, each with one part |
| Narrative.MapHistoryAppend | src/app/actions.ts:69-76 | the mapping distributes over concatenation, so the order of the history is kept |
| Narrative.MapHistoryWithoutSystem | src/app/actions.ts:69-76 | a history without `system` messages maps one-to-one, `dm` to `model`, `player` to `user`, text kept |
| Narrative.SystemMessageIgnored | src/app/actions.ts:71 | a `system` message adds nothing to the request |
| Narrative.ActionLines | src/app/actions.ts:125-127 | one line per action, in input order, `(Rolled: r)` only with a non-empty roll |
| Narrative.ActionDescriptionLines | src/app/actions.ts:125-127 | the joined description splits back into exactly those lines |
| Narrative.TurnContents | src/app/actions.ts:136-142 | the request is the mapped history followed by exactly one user prompt |
| Narrative.PartyLines | src/app/actions.ts:81-83 | one line per character, in roster order |
| Narrative.PartyDescriptionLines | src/app/actions.ts:81-83 | the party description splits back into one line per character |
| Narrative.InitializeCampaignAction | src/app/actions.ts:78-117 | fails exactly without the key; otherwise the parsed reply, or a `system` message with the error text |
| Narrative.ResolveTurnAction | src/app/actions.ts:119-166 | fails exactly without the key; otherwise the parsed reply, or the fixed `system` notice |
| Narrative.TurnAlwaysAnswers | src/app/actions.ts:138-165 | with the key set a turn always yields one message, from the DM or the fixed notice |
| Narrative.FirstInlineImage | src/app/actions.ts:181-185 | the data URL of the first part with inline data; none exactly when no part has any |
| Narrative.GenerateImageAction | src/app/actions.ts:168-192 | throws exactly without the key; a failed call or missing parts give null; otherwise the data URL of the first part with inline data, null when no part has any |
| Roster.FirstMatch | src/components/GameInterface.tsx:175 | the first key whose lower-cased form the lower-cased name contains; none exactly when no key matches |
| Roster.Lookup | src/components/GameInterface.tsx:175-179 | the value under the first matching key, unless that key is empty |
| Roster.NameMatchesItself | src/components/GameInterface.tsx:175 | every name matches itself, whatever its case |
| Roster.EmptyKeyMatchesAll | src/components/GameInterface.tsx:175 | the empty key matches every name |
| Roster.ApplyToCharacter | src/components/GameInterface.tsx:173-182 | HP becomes the looked-up value with no clamping, the inventory is replaced wholesale, nothing else changes |
| Roster.ApplyDelta | src/components/GameInterface.tsx:173-182 | the update applied to every character, same length and order |
| Roster.NoMatchUnchanged | src/components/GameInterface.tsx:173-182 | a character matching no key is unchanged |
| Roster.HpSetExactly | src/components/GameInterface.tsx:175-176 | a leading key equal to the name sets HP to exactly that value |
| Roster.EmptyKeyShadows | src/components/GameInterface.tsx:175-176 | a leading empty key blocks every HP update |
| Roster.EmptyDeltaIdentity | src/components/GameInterface.tsx:173-182 | an update without entries changes nobody |
| Roster.ApplyDeltaIdempotent | src/components/GameInterface.tsx:173-182 | applying an update twice is applying it once |
| Roster.ApplyDeltaKeepsRoster | src/components/GameInterface.tsx:173-182 | order, ids, names, owners and turn state are kept, hence the leader |
| Roster.MyCharacter | src/components/GameInterface.tsx:55 | `find`: the first character of the user; none exactly when the user has none |
| Roster.CanActIff | src/components/GameInterface.tsx:55-56 | for a user with at most one character: may act exactly when that character is not ready and nothing is in flight |
| Roster.FullAction | src/components/GameInterface.tsx:196 | the action text, followed by ` [Dice: r]` exactly when a non-empty roll is given |
| Roster.MarkReady | src/components/GameInterface.tsx:209-214 | exactly the user's characters become ready with the action; all others unchanged |
| Roster.MarkReadyBlocksUser | src/components/GameInterface.tsx:209-214 | after submitting the user cannot act again |
| Roster.MarkReadyCompletesTurn | src/components/GameInterface.tsx:209-214 | submitting makes everyone ready exactly when the party is non-empty and all other players were ready |
| Roster.ResetAll | src/components/GameInterface.tsx:238-242 | every character not ready with no pending action, all other fields unchanged |
| Roster.ResetDisarmsTrigger | src/components/GameInterface.tsx:238-242 | after the reset the party is not all ready, so the turn is not resolved twice |
| Roster.ResetReopensTurn | src/components/GameInterface.tsx:238-242 | after the reset every player with a character may act again |
| Roster.ProtocolKeepsReadyConsistent | src/components/GameInterface.tsx:209-242 | submitting, resetting and the state update keep "ready exactly when an action is pending" |
| Roster.TurnActions | src/components/GameInterface.tsx:229-232 | one action per character in roster order; no or an empty pending action reads "No hace nada, duda." |
| Roster.OnlyLeaderResolves | src/components/GameInterface.tsx:109-118 | of all users, only the owner of the first character triggers resolution |
| Roster.ResolvingMeansNobodyActs | src/components/GameInterface.tsx:109-118 | when resolution fires nobody can submit |
| TurnCoordinator.PlayerMessage | src/components/GameInterface.tsx:199-204 | a `player` message with the given text and no state |
| TurnCoordinator.GameSession.constructor | src/components/GameInterface.tsx:47-52 | the initial state of the component |
| TurnCoordinator.GameSession.HandleSend | src/components/GameInterface.tsx:193-223 | no change for blank text or when the user may not act; otherwise one player message appended, the user's characters marked ready, input and suggestions cleared, party and messages saved |
| TurnCoordinator.GameSession.TypeInput | src/components/GameInterface.tsx:398-404 | the action field takes the typed text exactly when the user may act, the field being disabled otherwise; nothing else changes |
| TurnCoordinator.GameSession.ClickSuggestion | src/components/GameInterface.tsx:382-387 | a suggestion, shown only while nothing loads and the user's hero is not ready, is copied into the action field; nothing else changes |
| TurnCoordinator.GameSession.Send | src/components/GameInterface.tsx:401-408 | Enter or the send button call `handleSend()`, whose default action (line 193) is the current input: it is submitted with no roll, with `handleSend`'s outcome stated in terms of the input before the call |
| TurnCoordinator.GameSession.HandleRoll | src/components/GameInterface.tsx:257-259 | submits `Lanzo los dados: r` with the roll attached, as `handleSend` does: one player message, the user's characters ready with that action, input and suggestions cleared, loading and location kept, one save of the new party and messages; nothing when the user may not act |
| TurnCoordinator.GameSession.ResolveTurn | src/components/GameInterface.tsx:225-255 | with a reply: party reset, exactly one message appended, both saved, loading off; when the action throws: nothing changed but loading on |
| TurnCoordinator.GameSession.FinishTurn | src/components/GameInterface.tsx:237-254 | party reset, reply appended, both saved, loading off |
| TurnCoordinator.GameSession.TurnEffect | src/components/GameInterface.tsx:109-118 | nothing happens unless the guard holds; then as `resolveTurn`: a reply resets the party, is appended, both are saved and loading ends; a throw leaves loading on and party, messages and saves as they were; input, location and suggestions are kept |
| TurnCoordinator.GameSession.AddMessage | src/components/GameInterface.tsx:135-142 | appends and saves with the current party |
| TurnCoordinator.GameSession.StartCampaign | src/components/GameInterface.tsx:127-133 | the opening message is appended and saved; a throw leaves loading on |
| TurnCoordinator.GameSession.CampaignEffect | src/components/GameInterface.tsx:121-125 | only the leader with no messages starts the campaign; the opening message becomes the only message and is saved, and loading ends; a throw leaves loading on and nothing saved; the party is kept |
| TurnCoordinator.GameSession.HandleDmUpdate | src/components/GameInterface.tsx:144-190 | a non-empty location and a suggestion list replace the current ones; the leader saves the updated party only when it differs; the local roster is kept |
| TurnCoordinator.GameSession.MessagesEffect | src/components/GameInterface.tsx:98-106 | only a last message carrying a state update changes anything; its non-empty location and its suggestions replace the current ones, and the leader saves the updated party exactly when it differs; roster, messages, loading and input are kept |
| TurnCoordinator.GameSession.OnRealtimeUpdate | src/components/GameInterface.tsx:77-89 | incoming messages win only when strictly more; an incoming party always replaces the roster; messages never shrink |
| TurnCoordinator.SubmissionThenResolution | src/components/GameInterface.tsx:109-118 | the leader's submission that completes the party arms the trigger, and the reset disarms it |
| Markdown.CloseAt | src/components/GameInterface.tsx:23 | the lazy `(.*?)` ends at the first delimiter, with no line terminator before it; it fails only when every later delimiter has a line terminator before it |
| Markdown.MatchAt | src/components/GameInterface.tsx:23 | a match at a position opens with the delimiter and closes with the first later one on the same line; with an opening delimiter it fails only when no closing one follows on that line |
| Markdown.SplitFrom | src/components/GameInterface.tsx:23 | `split` with a capturing pattern yields an odd number of pieces |
| Markdown.SplitFromLeftmost | src/components/GameInterface.tsx:23 | each piece read on its own: no text piece holds a match and no captured piece holds the delimiter |
| Markdown.SplitOnLeftmost | src/components/GameInterface.tsx:23 | the same for the whole text |
| Markdown.SplitFromAtFirstMatch | src/components/GameInterface.tsx:23 | at its position in the text: with `j` the first position from `q` where a match starts, closing at `k`, the next pieces are `s[p..j]` and `s[j+d..k]` and the split resumes after the closing delimiter |
| Markdown.SplitFromNoMatch | src/components/GameInterface.tsx:23 | with no match starting from `q` on, the rest of the text is the last piece; with `SplitFromAtFirstMatch` this fixes every piece |
| Markdown.SplitFromSkipTo | src/components/GameInterface.tsx:23 | positions where no match starts add no piece |
| Markdown.SplitFromSkip | src/components/GameInterface.tsx:23 | one position without a match adds no piece |
| Markdown.SplitFromAtMatch | src/components/GameInterface.tsx:23 | a match at the search position adds the text before it and its group |
| Markdown.SplitOnAtFirstMatch | src/components/GameInterface.tsx:23 | the first match of the whole text gives the first two pieces: the text before it and its group |
| Markdown.SplitOnNoMatch | src/components/GameInterface.tsx:23 | a text where no match starts is one piece |
| Markdown.TwoItalicRunsSplit | src/components/GameInterface.tsx:33 | `*a**b*` splits into `""`, `a`, `""`, `b`, `""` |
| Markdown.ItalicRunAt | src/components/GameInterface.tsx:33 | `*c*` for one character `c` other than `*` and a line terminator is a match closing two places on |
| Markdown.PairSplits | src/components/GameInterface.tsx:23 | a one-line run of text without `*` between two delimiters splits into empty text, the run, and empty text |
| Markdown.CapturesStayOnOneLine | src/components/GameInterface.tsx:23 | the captured pieces, at odd indices, never contain a line terminator |
| Markdown.SplitFromJoin | src/components/GameInterface.tsx:23 | joining the pieces with the delimiter gives the text back |
| Markdown.SplitOnJoin | src/components/GameInterface.tsx:23 | the same for the whole text |
| Markdown.SplitFromNoMarker | src/components/GameInterface.tsx:23 | text without the delimiter is one piece |
| Markdown.RenderItalics | src/components/GameInterface.tsx:31-39 | odd pieces are italics, even pieces plain, an odd number of them |
| Markdown.RenderMarkdown | src/components/GameInterface.tsx:21-44 | odd pieces are bold, even pieces are spans, an odd number of them |
| Markdown.ItalicsRoundTrip | src/components/GameInterface.tsx:31-39 | a span written back with its `*` markers is the original piece |
| Markdown.RenderRoundTrip | src/components/GameInterface.tsx:21-44 | the elements written back with their markers are the original text |
| Markdown.PlainTextIsOneSpan | src/components/GameInterface.tsx:21-44 | text without asterisks renders as one span holding one plain piece |
| Markdown.BoldPairRenders | src/components/GameInterface.tsx:21-44 | `**x**` renders `x` bold between two empty spans |
| Markdown.ItalicPairRenders | src/components/GameInterface.tsx:31-39 | `*x*` renders `x` in italics between two empty plain pieces |
| PointBuy.CostTable | src/components/CharacterCreator.tsx:18-20 | defined exactly on 8..15, with costs between 0 and 9 |
| PointBuy.CostMonotone | src/components/CharacterCreator.tsx:18-20 | a higher score never costs less |
| PointBuy.CostExpanded | src/components/CharacterCreator.tsx:33-35 | the cost is the sum of the six table costs, out-of-table scores costing 0 |
| PointBuy.CostWith | src/components/CharacterCreator.tsx:33-35 | changing one score changes the cost by the difference of its table entries |
| PointBuy.Modifier | src/components/CharacterCreator.tsx:31 | the floor of (v-10)/2 |
| PointBuy.InitialValid | src/components/CharacterCreator.tsx:25-27 | all 8s are valid and leave the full 27 points |
| PointBuy.StatChange | src/components/CharacterCreator.tsx:40-53 | out of [8, 15] refused; a decrease in range accepted; an increase accepted exactly when affordable; only the named stat changes |
| PointBuy.StatChangeKeepsValid | src/components/CharacterCreator.tsx:40-53 | a change keeps scores in [8, 15] and the remaining points non-negative |
| PointBuy.ChangesKeepValid | src/components/CharacterCreator.tsx:40-53 | so does any sequence of changes |
| PointBuy.AnyClicksFromStartValid | src/components/CharacterCreator.tsx:40-53 | from all 8s no sequence of clicks leaves [8, 15] or overspends |
| PointBuy.DrawStep | src/components/CharacterCreator.tsx:66-80 | one iteration of the loop is one draw |
| PointBuy.RaiseKeepsBudget | src/components/CharacterCreator.tsx:72-79 | a bought raise keeps the range and keeps spent plus remaining at 27 |
| PointBuy.RandomizeFromValid | src/components/CharacterCreator.tsx:66-80 | the loop never leaves [8, 15] and never overspends |
| PointBuy.RandomizedValid | src/components/CharacterCreator.tsx:59-82 | every randomised stat block is valid |
| PointBuy.DrawOnce | src/components/CharacterCreator.tsx:68-79 | the loop body: skip a maxed stat, buy a raise only when affordable |
| PointBuy.RandomStats | src/components/CharacterCreator.tsx:59-82 | the loop, at most 100 iterations from all 8s and 27 points, computes the block `Randomized` describes |
| PointBuy.MaxHp | src/components/CharacterCreator.tsx:103-105 | at least 1, and the hit die plus the CON modifier when that is larger |
| PointBuy.MaxHpInRange | src/components/CharacterCreator.tsx:103-105 | within the point-buy range the floor of 1 never applies |
| PointBuy.NewCharacter | src/components/CharacterCreator.tsx:101-121 | full health, level 1, empty inventory, not ready, "Unknown Hero" for an empty name |
| PointBuy.Creator.constructor | src/components/CharacterCreator.tsx:23-29 | the initial form, all scores 8 |
| PointBuy.Creator.HandleStatChange | src/components/CharacterCreator.tsx:40-53 | the stats become the guarded change and stay valid |
| PointBuy.Creator.ResetStats | src/components/CharacterCreator.tsx:55-57 | back to all 8s |
| PointBuy.Creator.HandleRandomizeStats | src/components/CharacterCreator.tsx:59-82 | a fresh randomised block, valid |
| PointBuy.Creator.Submit | src/components/CharacterCreator.tsx:101-121 | no character exactly when the remaining points are negative (the button is disabled); otherwise the new character |
| AudioUtils.Ascii | src/lib/audioUtils.ts:55-59 | one byte per character, its code modulo 256 |
| AudioUtils.ReadLE32 | src/lib/audioUtils.ts:26 | the four bytes `setUint32(_, v, true)` writes read back as v modulo 2^32 |
| AudioUtils.ReadLE16 | src/lib/audioUtils.ts:34 | the two bytes `setUint16(_, v, true)` writes read back as v modulo 2^16 |
| AudioUtils.WavHeader | src/lib/audioUtils.ts:20-48 | the header is exactly 44 bytes |
| AudioUtils.HeaderSizes | src/lib/audioUtils.ts:24-48 | the u32 at 4 is 36+n and the u32 at 40 is n |
| AudioUtils.HeaderFormat | src/lib/audioUtils.ts:30-44 | chunk length 16 at 16, format 1 at 20, one channel at 22, 24000 at 24, byte rate 48000 at 28, block align 2 at 32, 16 bits at 34 |
| AudioUtils.FormatHead | src/lib/audioUtils.ts:30-36 | chunk length, format and channels at their offsets |
| AudioUtils.FormatRates | src/lib/audioUtils.ts:38-44 | rate, byte rate, block align and bits at their offsets |
| AudioUtils.FmtFields | src/lib/audioUtils.ts:30-44 | each field of the format chunk at its offset in the chunk |
| AudioUtils.SetUint8 | src/lib/audioUtils.ts:57 | writes the value modulo 256 at the offset and nothing else |
| AudioUtils.SetUint16 | src/lib/audioUtils.ts:34 | writes two little-endian bytes at the offset and nothing else |
| AudioUtils.SetUint32 | src/lib/audioUtils.ts:26 | writes four little-endian bytes at the offset and nothing else |
| AudioUtils.WriteString | src/lib/audioUtils.ts:55-59 | each character's code at offset+i; no other byte touched |
| AudioUtils.DecodeBytes | src/lib/audioUtils.ts:7-12 | a fresh buffer as long as the string with `bytes[i]` the code of character i |
| AudioUtils.WriteHeader | src/lib/audioUtils.ts:20-48 | a fresh 44-byte buffer holding exactly the header |
| AudioUtils.WriteRiffHeader | src/lib/audioUtils.ts:24-28 | `RIFF` at 0, 36+n at 4, `WAVE` at 8; bytes after 12 kept |
| AudioUtils.WriteFmtChunk | src/lib/audioUtils.ts:30-44 | the format chunk at 12..36; every other byte kept |
| AudioUtils.WriteFmtHead | src/lib/audioUtils.ts:30-36 | `fmt `, length, format and channels at 12..24 |
| AudioUtils.WriteFmtRates | src/lib/audioUtils.ts:38-44 | rate, byte rate, block align and bits at 24..36 |
| AudioUtils.WriteDataHeader | src/lib/audioUtils.ts:46-48 | `data` at 36 and n at 40; the first 36 bytes kept |
| AudioUtils.PcmToWav | src/lib/audioUtils.ts:5-52 | the header followed by the decoded bytes, 44+n bytes in all |
| AudioUtils.WavSizesConsistent | src/lib/audioUtils.ts:26-51 | under 4 GiB the RIFF size is the file length minus 8, the data size the length minus 44, and the payload follows unchanged |
| App.ScreenOf | src/components/AetheriaApp.tsx:305 | login exactly when logged out, the lobby form exactly when logged in without a lobby id, the game only with heroes and (messages, the creator open or a full party) |
| App.RestoredLobbyId | src/components/AetheriaApp.tsx:32-42 | a URL lobby id wins over the stored one; neither gives none |
| App.AppState.constructor | src/components/AetheriaApp.tsx:14-24 | logged out, no lobby, empty party and messages |
| App.AppState.RestoreLobbyId | src/components/AetheriaApp.tsx:32-42 | takes the URL id, or else the stored id and removes it from storage; the form input follows |
| App.AppState.HandleUserAuthenticated | src/components/AetheriaApp.tsx:106-112 | logged in with the e-mail; nothing else changes |
| App.AppState.HandleSignedOut | src/components/AetheriaApp.tsx:55-60 | logged out, no e-mail; nothing else changes |
| App.AppState.HandleGoogleLogin | src/components/AetheriaApp.tsx:114-139 | the current lobby id, else the typed one, is stored; loading stays on unless the OAuth call fails |
| App.AppState.HandleJoinLobby | src/components/AetheriaApp.tsx:146-159 | an empty input changes nothing; otherwise the input becomes the lobby id |
| App.AppState.SetInputLobbyId | src/components/AetheriaApp.tsx:24 | the lobby form's text field |
| App.AppState.ApplyServerState | src/components/AetheriaApp.tsx:88-94 | a payload replaces party and messages wholesale, a missing list counting as empty |
| App.AppState.LobbySyncEffect | src/components/AetheriaApp.tsx:67-80 | loads only when logged in with a lobby id: a loaded document replaces party and messages, a missing list counting as empty; no document changes nothing; every other field is kept |
| App.AppState.AddCharacter | src/components/AetheriaApp.tsx:161-169 | appends at the end, closes the creator, saves exactly when there is a lobby id |
| App.AppState.ClickCreateHero | src/components/AetheriaApp.tsx:376-378 | opens the creator only where the slot is offered |
| App.AppState.CancelCreator | src/components/AetheriaApp.tsx:416-420 | closes the creator where it is drawn, on the party screen while creating; elsewhere nothing changes |
| App.AppState.VentureForth | src/components/AetheriaApp.tsx:399-402 | on the party screen with heroes the messages are set to the empty list; elsewhere nothing changes; either way the messages end as they were |
| App.RestoredLobbySkipsForm | src/components/AetheriaApp.tsx:32-42 | a restored lobby id leads past the lobby form once logged in |
| App.GameNeedsHeroes | src/components/AetheriaApp.tsx:305 | the game screen is only reached with heroes in the party |
| App.VentureForthKeepsMessages | src/components/AetheriaApp.tsx:402 | where "Venture Forth" is shown the messages are already empty, so it changes nothing |
| App.CreatorWithHeroesShowsGame | src/components/AetheriaApp.tsx:305 | with heroes and no messages: the party screen shows exactly while the party is not full, and opening the creator switches to the game screen |
| App.CanCreateHeroIff | src/components/AetheriaApp.tsx:376 | the slot is offered exactly when there is room and the user owns no hero |
| App.AddThroughGateKeepsParty | src/components/AetheriaApp.tsx:161-169 | a hero added through the slot keeps at most four heroes with one per owner, and closes the slot |
| App.AddKeepsLeader | src/components/AetheriaApp.tsx:162 | appending never changes the leader |
| Text.Trim | src/app/actions.ts:54 | `trim`: a slice of the text with only whitespace cut off at each end; empty exactly for all-whitespace text, otherwise starting and ending with a non-space |
| Text.IndexOf | src/app/actions.ts:54 | the first occurrence, none exactly when there is none |
| Text.SplitJoin | src/app/actions.ts:125-127 | splitting joined lines that lack the separator gives the lines back |
| Text.ParseNatToString | src/lib/gameUtils.ts:15-16 | rendering a number in decimal and parsing it back gives the number |

## Left out

- Supabase I/O is not modelled: the upsert and select of `saveGame`, `loadGame`, `getUserLobbies` and `deleteGame`, auth, realtime channels and the network. Saves are recorded in `saves`; loaded and pushed documents are parameters.
- The text and image model calls and the internals of `JSON.parse` are foreign calls. They are functions inside `Narrative.Backend`, and decoding is a partial function to `Option<DmState>`.
- `Math.random`, `Date.now()` and `new Date()` are inputs (draws, a stat-choice function, `now`). Message ids are `String(now)`.
- `window.atob`, `Blob` and `URL.createObjectURL` in `pcmToWav` are browser conversions. The model starts from the decoded binary string and returns the file's bytes.
- Async interleaving within one client and races between clients (last writer wins) are not modelled. Each awaited server action is one atomic step of one client.
- The rendering markup, the HP bar width and the skull threshold (floating point), the copy-confirmation timer, clipboard sharing, the random lobby id, logout with its page reload, the avatar file upload, auto-scroll and the dice animation are all left out.
- `toLowerCase` is modelled on ASCII letters only; full Unicode case mapping is not.
- `Object.keys` order is the order of the state update's pair sequence, and keys are assumed distinct as in a JSON object.
- Stored messages keep only `dmState` of their metadata; audio URLs are not modelled.
- The "has changed" test of `handleDmUpdate` compares values structurally where the source compares `JSON.stringify` output. The two differ only for fields JSON drops.
- `DataView` throwing `RangeError` for an offset out of bounds cannot happen at the fixed offsets of the header, so it is not modelled.
- Narrative.MapHistoryToContent: its own contract gives only the sizes; order, roles and texts are stated by `MapHistoryAppend` and `MapHistoryWithoutSystem`.
- AudioUtils.WavHeader: its own contract gives only the length; the field values are stated by `HeaderSizes` and `HeaderFormat`.
- Markdown.SplitFrom: its own contract gives only the parity of the piece count; `SplitFromAtFirstMatch` and `SplitFromNoMatch` fix every piece at its position in the text, and `SplitFromJoin` and `CapturesStayOnOneLine` state the join and the captures.
- App.AppState.LobbySyncEffect: the realtime subscription it sets up is not part of its contract; each pushed update is `ApplyServerState`.
- TurnCoordinator.GameSession.ResolveTurn: `saveGame` is taken to succeed. In the source it throws when the upsert fails (src/lib/gameUtils.ts:72-75), and `resolveTurn` awaits it before turning loading off (src/components/GameInterface.tsx:252-254), so a failed save leaves loading on; `FinishTurn`, `TurnEffect`, `HandleSend`, `HandleRoll`, `AddMessage` and `StartCampaign` make the same assumption.
- GameUtils.RollDice: `parseInt` (`Text.ParseDigits`) is modelled on unbounded integers. JavaScript numbers lose precision above 2^53, so a dice count, number of sides or modifier with more digits is not rounded as in the source.
