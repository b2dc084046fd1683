// The server actions that talk to the text model: the reply parser, the
// history mapping, the prompt builders, the error fallbacks and the image
// part scan (src/app/actions.ts). The model itself is a parameter.

module Narrative {
  import opened Types
  import opened Text

  datatype Role = User | Model
  datatype Part = TextPart(text: string)
  datatype Content = Content(role: Role, parts: seq<Part>)

  /** One entry of the `actions` argument of `resolveTurnAction`. */
  datatype ActionItem = ActionItem(characterName: string, action: string, roll: Option<string>)

  /** What `generateContent` gave back: an exception, or the first candidate's first text part. */
  datatype AiReply = ApiError(message: string) | Replied(text: Option<string>)

  /**
   * The collaborators of a server action: whether `GEMINI_API_KEY` is set, the
   * text model (from request contents to reply), `JSON.parse` read as a state
   * update (None when it throws), and `Date.now()`.
   */
  datatype Backend = Backend(
    keySet: bool,
    generate: seq<Content> -> AiReply,
    decode: string -> Option<DmState>,
    now: int)

  // ---------------------------------------------------------------- parseResponse

  const FenceOpen: string := "```json"
  const Fence: string := "```"

  /** Three backticks start at `k`: the text at `k` begins with `Fence`. */
  predicate IsFence(s: string, k: int) {
    0 <= k && k + |Fence| <= |s| && s[k] == '`' && s[k + 1] == '`' && s[k + 2] == '`'
  }

  /** ```json starts at `i`: the text at `i` begins with `FenceOpen`. */
  predicate IsFenceOpen(s: string, i: int) {
    IsFence(s, i) && i + |FenceOpen| <= |s|
    && s[i + 3] == 'j' && s[i + 4] == 's' && s[i + 5] == 'o' && s[i + 6] == 'n'
  }

  /** Optional whitespace from `q` on, then a closing fence. */
  predicate ClosesAt(s: string, q: nat)
    requires q <= |s|
  {
    IsFence(s, SkipSpace(s, q))
  }

  /**
   * The lazy `([\s\S]*?)\s*```` part: the first `q >= from` after which optional
   * whitespace and a closing fence follow.
   */
  function CloseFrom(s: string, from: nat): (r: Option<nat>)
    requires from <= |s|
    ensures r.Some? ==> from <= r.value <= |s| && ClosesAt(s, r.value)
    decreases |s| - from
  {
    if ClosesAt(s, from) then Some(from)
    else if from == |s| then None
    else CloseFrom(s, from + 1)
  }

  /** The lazy group is the shortest: no earlier position closes. */
  lemma {:induction false} CloseFromFirst(s: string, from: nat)
    requires from <= |s|
    ensures CloseFrom(s, from).Some? ==> forall q :: from <= q < CloseFrom(s, from).value ==> !ClosesAt(s, q)
    decreases |s| - from
  {
    if !ClosesAt(s, from) && from < |s| {
      CloseFromFirst(s, from + 1);
      assert CloseFrom(s, from) == CloseFrom(s, from + 1);
    }
  }

  lemma {:induction false} CloseFromFinds(s: string, from: nat, c: nat)
    requires from <= c <= |s|
    requires ClosesAt(s, c)
    ensures CloseFrom(s, from).Some? && CloseFrom(s, from).value <= c
    decreases c - from
  {
    if ClosesAt(s, from) {
      assert CloseFrom(s, from) == Some(from);
    } else {
      assert from < c && from < |s|;
      CloseFromFinds(s, from + 1, c);
      assert CloseFrom(s, from) == CloseFrom(s, from + 1);
    }
  }

  /** A match of /```json\s*([\s\S]*?)\s*```/: the whole match is s[start..end], the group s[groupStart..groupEnd]. */
  datatype FenceMatch = FenceMatch(start: nat, groupStart: nat, groupEnd: nat, end: nat)

  /** Whether the regular expression matches at exactly `i`. */
  function FenceAt(s: string, i: nat): (r: Option<FenceMatch>)
    requires i <= |s|
    ensures r.Some? ==> r.value.start == i && i + |FenceOpen| <= r.value.groupStart <= r.value.groupEnd
    ensures r.Some? ==> r.value.groupEnd + |Fence| <= r.value.end <= |s|
  {
    if !IsFenceOpen(s, i) then None
    else
      var p := SkipSpace(s, i + |FenceOpen|);
      match CloseFrom(s, p)
      case None => None
      case Some(q) => Some(FenceMatch(i, p, q, SkipSpace(s, q) + |Fence|))
  }

  lemma FenceAtEnds(s: string, i: nat)
    requires i <= |s| && FenceAt(s, i).Some?
    ensures var f := FenceAt(s, i).value;
      IsFenceOpen(s, i) && IsFence(s, f.end - |Fence|) && i + |FenceOpen| + |Fence| <= f.end
  {
    var p := SkipSpace(s, i + |FenceOpen|);
    var q := CloseFrom(s, p).value;
    assert ClosesAt(s, q);
  }

  /** The match opens with ```json, closes with ```, and only whitespace separates the group from either. */
  lemma FenceAtShape(s: string, i: nat)
    requires i <= |s| && FenceAt(s, i).Some?
    ensures var f := FenceAt(s, i).value;
      && IsFenceOpen(s, i) && IsFence(s, f.end - |Fence|)
      && (forall k :: i + |FenceOpen| <= k < f.groupStart ==> IsSpace(s[k]))
      && (forall k :: f.groupEnd <= k < f.end - |Fence| ==> IsSpace(s[k]))
      && (f.groupEnd > f.groupStart ==> !IsSpace(s[f.groupEnd - 1]))
  {
    var f := FenceAt(s, i).value;
    var p := SkipSpace(s, i + |FenceOpen|);
    assert CloseFrom(s, p) == Some(f.groupEnd);
    CloseFromFirst(s, p);
    if f.groupEnd > f.groupStart {
      var q := f.groupEnd;
      if IsSpace(s[q - 1]) {
        assert SkipSpace(s, q - 1) == SkipSpace(s, q);
        assert ClosesAt(s, q - 1);
        assert false;
      }
    }
  }

  /** An opening fence followed, anywhere later, by a closing fence always matches. */
  lemma FenceAtMatches(s: string, i: nat, c: nat)
    requires IsFenceOpen(s, i)
    requires i + |FenceOpen| <= c && IsFence(s, c)
    ensures FenceAt(s, i).Some?
  {
    var p := SkipSpace(s, i + |FenceOpen|);
    assert p <= c;
    assert SkipSpace(s, c) == c;
    CloseFromFinds(s, p, c);
  }

  /** The leftmost `k` in `[i, n]` at which `at` reports a match. */
  function Leftmost<M>(at: nat -> Option<M>, i: nat, n: nat): (r: Option<nat>)
    requires i <= n
    ensures r.Some? ==> i <= r.value <= n && at(r.value).Some?
    decreases n - i
  {
    if at(i).Some? then Some(i)
    else if i == n then None
    else Leftmost(at, i + 1, n)
  }

  /** Nothing before the position found matches, and when none is found nothing matches. */
  lemma {:induction false} LeftmostIsFirst<M>(at: nat -> Option<M>, i: nat, n: nat)
    requires i <= n
    ensures Leftmost(at, i, n).Some? ==> forall k :: i <= k < Leftmost(at, i, n).value ==> at(k).None?
    ensures Leftmost(at, i, n).None? ==> forall k :: i <= k <= n ==> at(k).None?
    decreases n - i
  {
    if at(i).None? && i < n {
      LeftmostIsFirst(at, i + 1, n);
    }
  }

  /** A match with none before it is the one found. */
  lemma {:induction false} LeftmostAt<M>(at: nat -> Option<M>, i: nat, j: nat, n: nat)
    requires i <= j <= n && at(j).Some?
    requires forall k :: i <= k < j ==> at(k).None?
    ensures Leftmost(at, i, n) == Some(j)
    decreases j - i
  {
    if i < j {
      LeftmostAt(at, i + 1, j, n);
    }
  }

  /** `FenceAt` as a function of the position alone. */
  function MatchIn(s: string): nat -> Option<FenceMatch> {
    (k: nat) => if k <= |s| then FenceAt(s, k) else None
  }

  /** `rawText.match(jsonRegex)`: the leftmost match. */
  function FindFence(s: string): (r: Option<FenceMatch>)
    ensures r.Some? ==> r.value.start <= |s| && FenceAt(s, r.value.start) == r
  {
    match Leftmost(MatchIn(s), 0, |s|)
    case None => None
    case Some(k) => FenceAt(s, k)
  }

  /** The match found is the leftmost one, and when none is found there is none. */
  lemma FindFenceLeftmost(s: string)
    ensures FindFence(s).Some? ==> forall k :: 0 <= k < FindFence(s).value.start ==> FenceAt(s, k).None?
    ensures FindFence(s).None? ==> forall k :: 0 <= k <= |s| ==> FenceAt(s, k).None?
  {
    LeftmostIsFirst(MatchIn(s), 0, |s|);
    if FindFence(s).Some? {
      var start := FindFence(s).value.start;
      forall k | 0 <= k < start ensures FenceAt(s, k).None? {
        assert MatchIn(s)(k) == FenceAt(s, k);
      }
    } else {
      forall k | 0 <= k <= |s| ensures FenceAt(s, k).None? {
        assert MatchIn(s)(k) == FenceAt(s, k);
      }
    }
  }

  /** A match at `i` with none before it is the match found. */
  lemma FindFenceAt(s: string, i: nat)
    requires i <= |s| && FenceAt(s, i).Some?
    requires forall k :: 0 <= k < i ==> FenceAt(s, k).None?
    ensures FindFence(s) == FenceAt(s, i)
  {
    forall k | 0 <= k < i ensures MatchIn(s)(k).None? {
      assert MatchIn(s)(k) == FenceAt(s, k);
    }
    assert MatchIn(s)(i) == FenceAt(s, i);
    LeftmostAt(MatchIn(s), 0, i, |s|);
  }

  /**
   * `rawText.replace(match[0], '')` removes the match itself: an earlier copy of
   * the matched text would have been an earlier match.
   */
  lemma ReplaceRemovesMatch(s: string, f: FenceMatch)
    requires FindFence(s) == Some(f)
    ensures f.start <= f.end <= |s|
    ensures IndexOf(s, s[f.start..f.end]) == Some(f.start)
  {
    assert FenceAt(s, f.start) == Some(f);
    var m := s[f.start..f.end];
    assert StartsAt(s, f.start, m);
    NoEarlierCopy(s, f);
    IndexOfIs(s, m, f.start);
  }

  lemma NoEarlierCopy(s: string, f: FenceMatch)
    requires FindFence(s) == Some(f)
    ensures f.start <= f.end <= |s|
    ensures forall j :: 0 <= j < f.start ==> !StartsAt(s, j, s[f.start..f.end])
  {
    assert FenceAt(s, f.start) == Some(f);
    FindFenceLeftmost(s);
    forall j | 0 <= j < f.start ensures !StartsAt(s, j, s[f.start..f.end]) {
      if StartsAt(s, j, s[f.start..f.end]) {
        CopyOfMatchMatches(s, f, j);
        assert false;
      }
    }
  }

  /** So the text that remains is what surrounds the match. */
  lemma RemoveMatch(s: string, f: FenceMatch)
    requires FindFence(s) == Some(f)
    ensures f.start <= f.end <= |s|
    ensures RemoveFirst(s, s[f.start..f.end]) == s[..f.start] + s[f.end..]
  {
    ReplaceRemovesMatch(s, f);
    RemoveAt(s, f.start, f.end);
  }

  lemma RemoveAt(s: string, a: nat, b: nat)
    requires a <= b <= |s| && IndexOf(s, s[a..b]) == Some(a)
    ensures RemoveFirst(s, s[a..b]) == s[..a] + s[b..]
  {
    assert |s[a..b]| == b - a;
  }

  /** Wherever the text of a match occurs again, the expression matches there too. */
  lemma CopyOfMatchMatches(s: string, f: FenceMatch, j: nat)
    requires f.start <= |s| && FenceAt(s, f.start) == Some(f)
    requires StartsAt(s, j, s[f.start..f.end])
    ensures FenceAt(s, j).Some?
  {
    FenceAtEnds(s, f.start);
    var c := j + (f.end - |Fence| - f.start);
    CopyHasFences(s, f.start, f.end, j, c);
    FenceAtMatches(s, j, c);
  }

  /** A copy of `s[a..b]`, which opens with ```json and closes with ```, does the same. */
  lemma CopyHasFences(s: string, a: nat, b: nat, j: nat, c: nat)
    requires a + |FenceOpen| + |Fence| <= b <= |s| && c == j + (b - |Fence| - a)
    requires IsFenceOpen(s, a) && IsFence(s, b - |Fence|)
    requires StartsAt(s, j, s[a..b])
    ensures IsFenceOpen(s, j) && IsFence(s, c) && j + |FenceOpen| <= c
  {
    forall i | j <= i < j + (b - a) ensures s[i] == s[a + (i - j)] {
      assert s[i] == s[j..j + (b - a)][i - j];
    }
  }

  function DmMessage(text: string, dmState: Option<DmState>, now: int): Message {
    Message(IntToString(now), Dm, text, now, dmState)
  }

  /**
   * `parseResponse`: never fails. When the first ```json block decodes, the state
   * is attached and the text is the reply without that block, trimmed;
   * otherwise the text is the reply exactly as received.
   */
  function ParseResponse(raw: string, decode: string -> Option<DmState>, now: int): (m: Message)
    ensures m.sender == Dm && m.timestamp == now
    ensures FindFence(raw).None? ==> m.text == raw && m.dmState.None?
    ensures FindFence(raw).Some? ==> var f := FindFence(raw).value;
      match decode(raw[f.groupStart..f.groupEnd])
      case None => m.text == raw && m.dmState.None?
      case Some(d) => m.dmState == Some(d) && m.text == Trim(raw[..f.start] + raw[f.end..])
  {
    match FindFence(raw)
    case None => DmMessage(raw, None, now)
    case Some(f) =>
      match decode(raw[f.groupStart..f.groupEnd])
      case None => DmMessage(raw, None, now)
      case Some(d) =>
        RemoveMatch(raw, f);
        DmMessage(Trim(RemoveFirst(raw, raw[f.start..f.end])), Some(d), now)
  }

  predicate NoBacktick(s: string) {
    forall k :: 0 <= k < |s| ==> s[k] != '`'
  }

  /**
   * A reply laid out as the system instruction asks (story, then one ```json
   * block) yields the story, trimmed, and the decoded block.
   */
  lemma WellFormedReplyParses(story: string, json: string, decode: string -> Option<DmState>, now: int, d: DmState)
    requires NoBacktick(story) && NoBacktick(json)
    requires json != [] ==> !IsSpace(json[0]) && !IsSpace(json[|json| - 1])
    requires decode(json) == Some(d)
    ensures ParseResponse(story + FenceOpen + json + Fence, decode, now) == DmMessage(Trim(story), Some(d), now)
  {
    var s := story + FenceOpen + json + Fence;
    var i := |story|;
    var f := FenceMatch(i, i + |FenceOpen|, i + |FenceOpen| + |json|, |s|);
    WellFormedFence(story, json);
    NoFenceInStory(story, FenceOpen + json + Fence);
    assert s == story + (FenceOpen + json + Fence);
    FindFenceAt(s, i);
    assert FindFence(s) == Some(f);
    assert s[f.groupStart..f.groupEnd] == json;
    RemoveMatch(s, f);
    assert RemoveFirst(s, s[f.start..f.end]) == story by {
      assert s[..i] == story;
    }
  }

  lemma NoFenceInStory(story: string, rest: string)
    requires NoBacktick(story)
    ensures forall k :: 0 <= k < |story| ==> FenceAt(story + rest, k).None?
  {
    var s := story + rest;
    forall k | 0 <= k < |story| ensures FenceAt(s, k).None? {
      assert s[k] == story[k];
    }
  }

  /** In such a reply the expression matches at the opening fence, its group being the block. */
  lemma WellFormedFence(story: string, json: string)
    requires NoBacktick(json)
    requires json != [] ==> !IsSpace(json[0]) && !IsSpace(json[|json| - 1])
    ensures var s := story + FenceOpen + json + Fence;
      var i := |story|;
      FenceAt(s, i) == Some(FenceMatch(i, i + |FenceOpen|, i + |FenceOpen| + |json|, |s|))
  {
    var s := story + FenceOpen + json + Fence;
    var i := |story|;
    var gs := i + |FenceOpen|;
    var ge := gs + |json|;
    BlockLayout(story, json);
    BlockClosesOnce(s, gs, ge);
    CloseFromFinds(s, gs, ge);
  }

  /** Where the fences and the block sit in such a reply. */
  lemma BlockLayout(story: string, json: string)
    requires json != [] ==> !IsSpace(json[0])
    ensures var s := story + FenceOpen + json + Fence;
      var gs := |story| + |FenceOpen|;
      var ge := gs + |json|;
      && |s| == ge + |Fence|
      && IsFenceOpen(s, |story|) && SkipSpace(s, gs) == gs
      && IsFence(s, ge) && SkipSpace(s, ge) == ge
      && s[gs..ge] == json
  {
    var s := story + FenceOpen + json + Fence;
    var i := |story|;
    var gs := i + |FenceOpen|;
    var ge := gs + |json|;
    assert IsFenceOpen(s, i) by {
      forall k | 0 <= k < |FenceOpen| ensures s[i + k] == FenceOpen[k] { }
    }
    assert SkipSpace(s, gs) == gs by {
      if json != [] { assert s[gs] == json[0]; } else { assert s[gs] == '`'; }
    }
    assert IsFence(s, ge) by {
      forall k | 0 <= k < |Fence| ensures s[ge + k] == Fence[k] { }
    }
    assert SkipSpace(s, ge) == ge;
  }

  /** No position inside a block without backticks that ends in a non-space closes it early. */
  lemma BlockClosesOnce(s: string, gs: nat, ge: nat)
    requires gs <= ge <= |s| && NoBacktick(s[gs..ge])
    requires ge > gs ==> !IsSpace(s[ge - 1])
    ensures forall q :: gs <= q < ge ==> !ClosesAt(s, q)
  {
    forall q | gs <= q < ge ensures !ClosesAt(s, q) {
      var r := SkipSpace(s, q);
      assert r < ge;
      assert s[r] == s[gs..ge][r - gs];
    }
  }

  // ---------------------------------------------------------------- history and prompts

  function RoleOf(sender: Sender): Role
    requires sender != System
  {
    if sender == Dm then Model else User
  }

  function ToContent(m: Message): Content
    requires m.sender != System
  {
    Content(RoleOf(m.sender), [TextPart(m.text)])
  }

  /** `mapHistoryToContent`: `system` messages are dropped, `dm` speaks as `model`, `player` as `user`. */
  function MapHistoryToContent(messages: seq<Message>): (r: seq<Content>)
    ensures |r| <= |messages|
    ensures forall i :: 0 <= i < |r| ==> |r[i].parts| == 1
  {
    if |messages| == 0 then []
    else if messages[0].sender == System then MapHistoryToContent(messages[1..])
    else [ToContent(messages[0])] + MapHistoryToContent(messages[1..])
  }

  /** The mapping keeps the order of the history: it distributes over concatenation. */
  lemma {:induction false} MapHistoryAppend(a: seq<Message>, b: seq<Message>)
    ensures MapHistoryToContent(a + b) == MapHistoryToContent(a) + MapHistoryToContent(b)
  {
    if |a| > 0 {
      assert (a + b)[1..] == a[1..] + b;
      MapHistoryAppend(a[1..], b);
    } else {
      assert a + b == b;
    }
  }

  /** A history of `dm` and `player` messages maps one message to one content, text and order kept. */
  lemma {:induction false} MapHistoryWithoutSystem(messages: seq<Message>)
    requires forall i :: 0 <= i < |messages| ==> messages[i].sender != System
    ensures |MapHistoryToContent(messages)| == |messages|
    ensures forall i :: 0 <= i < |messages| ==>
      MapHistoryToContent(messages)[i] == Content(RoleOf(messages[i].sender), [TextPart(messages[i].text)])
  {
    if |messages| > 0 {
      MapHistoryWithoutSystem(messages[1..]);
    }
  }

  /** A `system` message adds nothing to the request. */
  lemma SystemMessageIgnored(history: seq<Message>, m: Message)
    requires m.sender == System
    ensures MapHistoryToContent(history + [m]) == MapHistoryToContent(history)
  {
    MapHistoryAppend(history, [m]);
  }

  /** `` `- ${characterName}: ${action} ${roll ? `(Rolled: ${roll})` : ''}` `` */
  function ActionLine(a: ActionItem): string {
    "- " + a.characterName + ": " + a.action + " "
    + (if a.roll.Some? && a.roll.value != "" then "(Rolled: " + a.roll.value + ")" else "")
  }

  function ActionLines(actions: seq<ActionItem>): (r: seq<string>)
    ensures |r| == |actions|
    ensures forall i :: 0 <= i < |actions| ==> r[i] == ActionLine(actions[i])
  {
    seq(|actions|, i requires 0 <= i < |actions| => ActionLine(actions[i]))
  }

  function ActionDescriptions(actions: seq<ActionItem>): string {
    Join(ActionLines(actions), "\n")
  }

  predicate SingleLine(s: string) {
    forall k :: 0 <= k < |s| ==> s[k] != '\n'
  }

  /** Each action is one line of the description, in input order. */
  lemma ActionDescriptionLines(actions: seq<ActionItem>)
    requires |actions| >= 1
    requires forall i :: 0 <= i < |actions| ==> SingleLine(ActionLine(actions[i]))
    ensures Split(ActionDescriptions(actions), '\n') == ActionLines(actions)
  {
    assert "\n" == ['\n'];
    SplitJoin(ActionLines(actions), '\n');
  }

  const TurnPromptHead: string := "\n    The players have made their decisions for this turn:\n    "
  const TurnPromptTail: string :=
    "\n    \n    Resolve these actions based on the current context and describe what happens next.\n    "

  function TurnPrompt(actions: seq<ActionItem>): string {
    TurnPromptHead + ActionDescriptions(actions) + TurnPromptTail
  }

  /** The request of `resolveTurnAction`: the mapped history, then one user prompt. */
  function TurnContents(actions: seq<ActionItem>, history: seq<Message>): (r: seq<Content>)
    ensures |r| == |MapHistoryToContent(history)| + 1
    ensures r[..|r| - 1] == MapHistoryToContent(history)
    ensures r[|r| - 1] == Content(User, [TextPart(TurnPrompt(actions))])
  {
    MapHistoryToContent(history) + [Content(User, [TextPart(TurnPrompt(actions))])]
  }

  /** One line of the party description of `initializeCampaignAction`. */
  function PartyLine(c: Character): string {
    c.name + " (Level " + IntToString(c.level) + " " + ClassName(c.classType) + ") - HP: "
    + IntToString(c.hp) + "/" + IntToString(c.maxHp)
    + ". Stats: STR" + IntToString(c.stats.str) + " DEX" + IntToString(c.stats.dex)
    + " INT" + IntToString(c.stats.intel) + ". Bio: " + c.bio
    + ". Inventory: " + Join(c.inventory, ", ")
  }

  function PartyLines(party: seq<Character>): (r: seq<string>)
    ensures |r| == |party|
    ensures forall i :: 0 <= i < |party| ==> r[i] == PartyLine(party[i])
  {
    seq(|party|, i requires 0 <= i < |party| => PartyLine(party[i]))
  }

  function PartyDescription(party: seq<Character>): string {
    Join(PartyLines(party), "\n")
  }

  /** Each character is one line of the party description, in roster order. */
  lemma PartyDescriptionLines(party: seq<Character>)
    requires |party| >= 1
    requires forall i :: 0 <= i < |party| ==> SingleLine(PartyLine(party[i]))
    ensures Split(PartyDescription(party), '\n') == PartyLines(party)
  {
    assert "\n" == ['\n'];
    SplitJoin(PartyLines(party), '\n');
  }

  const InitPromptHead: string := "\n    Start a new adventure for this party:\n    "
  const InitPromptTail: string :=
    "\n    \n    Create an interesting scenario (e.g., a tavern meeting, a waking up in a dungeon, a king's summons).\n    Set the scene and ask what they want to do.\n    "

  function InitPrompt(party: seq<Character>): string {
    InitPromptHead + PartyDescription(party) + InitPromptTail
  }

  function InitContents(party: seq<Character>): seq<Content> {
    [Content(User, [TextPart(InitPrompt(party))])]
  }

  // ---------------------------------------------------------------- server actions

  const MissingKeyError: string := "GEMINI_API_KEY is not set in environment variables."
  const NoResponseError: string := "No response from AI"
  const InitErrorPrefix: string := "The Dungeon Master is having trouble connecting to the astral plane (API Error): "
  const TurnErrorText: string := "The Dungeon Master is silent (API Error)."

  function SystemMessage(text: string, now: int): Message {
    Message(IntToString(now), System, text, now, None)
  }

  /** The reply text when there is one; an empty text counts as none (`!text`). */
  function ReplyText(reply: AiReply): Option<string> {
    if reply.Replied? && reply.text.Some? && reply.text.value != "" then reply.text else None
  }

  /** The message of the exception caught in `try`, if any. */
  function ReplyError(reply: AiReply): string {
    if reply.ApiError? then reply.message else NoResponseError
  }

  /**
   * `initializeCampaignAction`: throws only when the key is missing (`getAI()`
   * runs before `try`); every failure of the call becomes a `system` message.
   */
  function InitializeCampaignAction(party: seq<Character>, b: Backend): (r: Result<Message, string>)
    ensures r.Failure? <==> !b.keySet
    ensures r.Failure? ==> r.error == MissingKeyError
    ensures r.Success? ==> match ReplyText(b.generate(InitContents(party)))
      case Some(t) => r.value == ParseResponse(t, b.decode, b.now)
      case None => r.value == SystemMessage(InitErrorPrefix + ReplyError(b.generate(InitContents(party))), b.now)
  {
    if !b.keySet then Failure(MissingKeyError)
    else
      var reply := b.generate(InitContents(party));
      match ReplyText(reply)
      case Some(t) => Success(ParseResponse(t, b.decode, b.now))
      case None => Success(SystemMessage(InitErrorPrefix + ReplyError(reply), b.now))
  }

  /** `resolveTurnAction`: the same shape, with a fixed error text. */
  function ResolveTurnAction(actions: seq<ActionItem>, history: seq<Message>, b: Backend): (r: Result<Message, string>)
    ensures r.Failure? <==> !b.keySet
    ensures r.Failure? ==> r.error == MissingKeyError
    ensures r.Success? ==> match ReplyText(b.generate(TurnContents(actions, history)))
      case Some(t) => r.value == ParseResponse(t, b.decode, b.now)
      case None => r.value == SystemMessage(TurnErrorText, b.now)
  {
    if !b.keySet then Failure(MissingKeyError)
    else
      match ReplyText(b.generate(TurnContents(actions, history)))
      case Some(t) => Success(ParseResponse(t, b.decode, b.now))
      case None => Success(SystemMessage(TurnErrorText, b.now))
  }

  /** With the key set a turn always yields one message, from the DM or a `system` notice. */
  lemma TurnAlwaysAnswers(actions: seq<ActionItem>, history: seq<Message>, b: Backend)
    requires b.keySet
    ensures ResolveTurnAction(actions, history, b).Success?
    ensures var m := ResolveTurnAction(actions, history, b).value;
      m.sender == Dm || (m.sender == System && m.text == TurnErrorText)
  {
  }

  // ---------------------------------------------------------------- images

  datatype InlineData = InlineData(mimeType: string, data: string)
  datatype ImagePart = ImagePart(inlineData: Option<InlineData>)

  /** The reply to an image request: an exception, or the first candidate's parts when present. */
  datatype ImageReply = ImageError | ImageParts(parts: Option<seq<ImagePart>>)

  function DataUrl(d: InlineData): string {
    "data:" + d.mimeType + ";base64," + d.data
  }

  /** The `for ... of` scan: the data URL of the first part that carries inline data. */
  method FirstInlineImage(parts: seq<ImagePart>) returns (url: Option<string>)
    ensures url.None? <==> forall k :: 0 <= k < |parts| ==> parts[k].inlineData.None?
    ensures url.Some? ==>
      exists k :: 0 <= k < |parts| && parts[k].inlineData.Some?
        && url.value == DataUrl(parts[k].inlineData.value)
        && (forall j :: 0 <= j < k ==> parts[j].inlineData.None?)
  {
    var i := 0;
    while i < |parts|
      invariant 0 <= i <= |parts|
      invariant forall j :: 0 <= j < i ==> parts[j].inlineData.None?
    {
      if parts[i].inlineData.Some? {
        return Some(DataUrl(parts[i].inlineData.value));
      }
      i := i + 1;
    }
    return None;
  }

  /** `generateImageAction`: throws without a key, otherwise a data URL or null. */
  method GenerateImageAction(keySet: bool, reply: ImageReply) returns (r: Result<Option<string>, string>)
    ensures r.Failure? <==> !keySet
    ensures r.Success? && (reply.ImageError? || reply.parts.None?) ==> r.value.None?
    ensures r.Success? && reply.ImageParts? && reply.parts.Some? ==>
      (r.value.None? <==> forall k :: 0 <= k < |reply.parts.value| ==> reply.parts.value[k].inlineData.None?)
    ensures r.Success? && reply.ImageParts? && reply.parts.Some? && r.value.Some? ==>
      exists k :: 0 <= k < |reply.parts.value| && reply.parts.value[k].inlineData.Some?
        && r.value.value == DataUrl(reply.parts.value[k].inlineData.value)
        && (forall j :: 0 <= j < k ==> reply.parts.value[j].inlineData.None?)
  {
    if !keySet {
      return Failure(MissingKeyError);
    }
    if reply.ImageError? || reply.parts.None? {
      return Success(None);
    }
    var url := FirstInlineImage(reply.parts.value);
    return Success(url);
  }
}
