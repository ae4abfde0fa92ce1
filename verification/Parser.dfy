/** The response parser of App.tsx (`handleAgentResponse`): a reply is either
    a terminal JSON report or a persona reply, optionally preceded by an
    internal analysis block from which the risk score and the target persona
    are read with two regular expressions. `JSON.parse`, the remote model and
    the speech synthesis are oracles passed in as functions. */
module Parser {
  import opened Wrappers
  import opened Text
  import opened Types
  import Gateway
  import Session

  const Marker := "INTERNAL_ANALYSIS:"
  const ParagraphBreak := "\n\n"
  const RiskLabel := "CURRENT_RISK:"
  const PersonaLabel := "TARGET_PERSONA:"

  // ----- The history sent to the model -----

  /** `history.filter(m => m.role !== INTERNAL).map(m => ({role, content}))`. */
  function ModelHistory(history: seq<Message>): (turns: seq<Gateway.Turn>)
    ensures |turns| <= |history|
    ensures forall t | t in turns :: t.role != RoleValue(Internal)
    ensures forall t | t in turns :: exists m | m in history :: m.role != Internal && t == Gateway.Turn(RoleValue(m.role), m.content)
  {
    if history == [] then []
    else
      var rest := ModelHistory(history[1..]);
      var m := history[0];
      assert forall t | t in rest :: exists m' | m' in history :: m'.role != Internal && t == Gateway.Turn(RoleValue(m'.role), m'.content);
      if m.role == Internal then rest else [Gateway.Turn(RoleValue(m.role), m.content)] + rest
  }

  /** Appending a message to the history appends its turn to what the model
      sees, unless it is internal analysis. */
  lemma {:induction false} ModelHistoryAppend(history: seq<Message>, m: Message)
    ensures ModelHistory(history + [m]) ==
      ModelHistory(history) + (if m.role == Internal then [] else [Gateway.Turn(RoleValue(m.role), m.content)])
  {
    if history != [] {
      assert (history + [m])[1..] == history[1..] + [m];
      ModelHistoryAppend(history[1..], m);
    }
  }

  // ----- The terminal branch -----

  /** The trimmed reply starts with an opening brace. */
  predicate StartsWithBrace(response: string): (b: bool)
    ensures b <==> exists k | 0 <= k < |response| :: response[k] == '{' && AllSpace(response[..k])
  {
    var t := Trim(response);
    FirstNonSpace(response);
    t != [] && t[0] == '{'
  }

  /** The trimmed text opens with the first character that is not white
      space, and is empty when there is none. */
  lemma FirstNonSpace(s: string)
    ensures var t, a := Trim(s), TrimOffset(s);
      && (t != [] ==> t[0] == s[a] && AllSpace(s[..a]))
      && (forall k | 0 <= k < |s| && AllSpace(s[..k]) && !IsSpace(s[k]) :: t != [] && k == a)
  {
    var t, a := Trim(s), TrimOffset(s);
    forall k | 0 <= k < |s| && AllSpace(s[..k]) && !IsSpace(s[k])
      ensures t != [] && k == a
    {
      TrimStartAt(s, k);
      TrimEndKeepsFirst(TrimStart(s));
    }
  }

  /** `report.extracted_entities?.x || []` for each of the five lists. */
  function SanitizedEntities(reported: Option<ReportedEntities>): (e: Entities)
    ensures reported.None? ==> e == NoEntities
    ensures reported.Some? ==>
      && e.phoneNumbers == reported.value.phoneNumbers.GetOr([])
      && e.upiIds == reported.value.upiIds.GetOr([])
      && e.bankAccounts == reported.value.bankAccounts.GetOr([])
      && e.ifscCodes == reported.value.ifscCodes.GetOr([])
      && e.links == reported.value.links.GetOr([])
  {
    match reported
    case None => NoEntities
    case Some(r) => Entities(
      r.phoneNumbers.GetOr([]), r.upiIds.GetOr([]), r.bankAccounts.GetOr([]),
      r.ifscCodes.GetOr([]), r.links.GetOr([]))
  }

  /** The terminal update: the session ends with the report; the risk score
      is the report's when that is present and non-zero, the prior one
      otherwise; the entity lists are replaced; no message is added and the
      call flag is left as it is. */
  function ApplyReport(prev: SessionState, report: SessionReport): (r: SessionState)
    ensures r.isTerminated && !r.isActive && r.finalReport == Some(report)
    ensures r.riskScore == if report.riskScore.Some? && report.riskScore.value != 0 then report.riskScore.value else prev.riskScore
    ensures report.extractedEntities.None? ==> r.entities == NoEntities
    ensures r.entities == SanitizedEntities(report.extractedEntities)
    ensures r.messages == prev.messages && r.personaTimeline == prev.personaTimeline
    ensures r.currentPersona == prev.currentPersona && r.isCallActive == prev.isCallActive
    ensures r.voiceConfig == prev.voiceConfig && r.behavioralSignals == prev.behavioralSignals
  {
    var score := match report.riskScore
      case Some(v) => if v != 0 then v else prev.riskScore
      case None => prev.riskScore;
    prev.(
      isTerminated := true,
      isActive := false,
      finalReport := Some(report),
      riskScore := score,
      entities := SanitizedEntities(report.extractedEntities))
  }

  // ----- The marker split -----

  /** `parts.length > 1 ? parts[1].split('\n\n')[0] : ''` with
      `parts = response.split('INTERNAL_ANALYSIS:')`. */
  function AnalysisText(response: string): (a: string)
    ensures IndexOf(response, Marker).None? ==> a == ""
    ensures forall j: nat :: !OccursAt(a, Marker, j) && !OccursAt(a, ParagraphBreak, j)
  {
    var parts := Split(response, Marker);
    SplitFirstPiece(response, Marker);
    if |parts| > 1 then
      var a := Split(parts[1], ParagraphBreak)[0];
      SplitFirstPiece(parts[1], ParagraphBreak);
      PrefixKeepsAbsence(parts[1], Marker, |a|);
      a
    else ""
  }

  /** The persona-facing reply: the reply with marker and analysis removed by
      a first-occurrence `replace`, then trimmed. */
  function PersonaText(response: string): (r: string)
    ensures |r| <= |response|
    ensures r != [] ==> !IsSpace(r[0]) && !IsSpace(r[|r| - 1])
  {
    Trim(ReplaceFirst(response, Marker + AnalysisText(response), ""))
  }

  /** Where the analysis block ends: a second marker or a blank line. */
  predicate Boundary(rest: string, p: nat)
  {
    OccursAt(rest, Marker, p) || OccursAt(rest, ParagraphBreak, p)
  }

  /** The second piece of a split is the first piece of what follows the
      first separator. */
  lemma SecondPiece(s: string, sep: string, i: nat)
    requires sep != [] && IndexOf(s, sep) == Some(i)
    ensures |Split(s, sep)| > 1 && Split(s, sep)[1] == Split(s[i + |sep|..], sep)[0]
  {
  }

  /** Cutting first at the next marker and then at the first blank line
      cuts at the first boundary of either kind. */
  lemma CutAtFirstBoundary(rest: string, seg: string, a: string)
    requires |seg| <= |rest| && seg == rest[..|seg|]
    requires forall p: nat | p < |seg| :: !OccursAt(rest, Marker, p)
    requires |seg| == |rest| || OccursAt(rest, Marker, |seg|)
    requires |a| <= |seg| && a == seg[..|a|]
    requires forall p: nat | p < |a| :: !OccursAt(seg, ParagraphBreak, p)
    requires |a| == |seg| || OccursAt(seg, ParagraphBreak, |a|)
    ensures |a| <= |rest| && a == rest[..|a|]
    ensures forall p: nat | p < |a| :: !Boundary(rest, p)
    ensures |a| == |rest| || Boundary(rest, |a|)
  {
    forall p: nat | p < |a|
      ensures !OccursAt(rest, ParagraphBreak, p)
    {
      if p + 1 < |seg| {
        assert seg[p] == rest[p] && seg[p + 1] == rest[p + 1];
        assert !OccursAt(seg, ParagraphBreak, p);
      } else if p + 1 < |rest| {
        assert OccursAt(rest, Marker, p + 1);
        assert rest[p + 1 + 0] == Marker[0] == 'I';
        assert ParagraphBreak[1] == '\n';
      }
    }
    if |a| < |seg| {
      assert OccursAt(seg, ParagraphBreak, |a|);
      assert seg[|a|] == rest[|a|] && seg[|a| + 1] == rest[|a| + 1];
    }
  }

  /** With the first marker at `i`, the analysis is the text after it up to
      the first boundary, or to the end when there is none. */
  lemma AnalysisAfterMarker(response: string, i: nat)
    requires IndexOf(response, Marker) == Some(i)
    ensures var rest := response[i + |Marker|..];
      var a := AnalysisText(response);
      && |a| <= |rest| && a == rest[..|a|]
      && (forall p: nat | p < |a| :: !Boundary(rest, p))
      && (|a| == |rest| || Boundary(rest, |a|))
  {
    var rest := response[i + |Marker|..];
    SecondPiece(response, Marker, i);
    var seg := Split(rest, Marker)[0];
    SplitFirstPiece(rest, Marker);
    var a := Split(seg, ParagraphBreak)[0];
    SplitFirstPiece(seg, ParagraphBreak);
    assert a == AnalysisText(response);
    CutAtFirstBoundary(rest, seg, a);
  }

  /** Without a marker there is no analysis and the reply is the whole
      response, trimmed. */
  lemma NoMarkerReply(response: string)
    requires IndexOf(response, Marker).None?
    ensures AnalysisText(response) == ""
    ensures PersonaText(response) == Trim(response)
  {
    SplitFirstPiece(response, Marker);
    assert Marker + "" == Marker;
  }

  /** With the first marker at `i`, the reply is what precedes the marker
      joined to what follows the analysis, trimmed. */
  lemma ReplyWithoutAnalysis(response: string, i: nat)
    requires IndexOf(response, Marker) == Some(i)
    ensures && i + |Marker| + |AnalysisText(response)| <= |response|
            && PersonaText(response) ==
               Trim(response[..i] + response[i + |Marker| + |AnalysisText(response)|..])
  {
    var a := AnalysisText(response);
    AnalysisAfterMarker(response, i);
    var rest := response[i + |Marker|..];
    var pat := Marker + a;
    forall j | 0 <= j < |pat|
      ensures response[i + j] == pat[j]
    {
      if j >= |Marker| {
        assert pat[j] == a[j - |Marker|] == rest[j - |Marker|];
      }
    }
    assert OccursAt(response, pat, i);
    forall j: nat | j < i
      ensures !OccursAt(response, pat, j)
    {
      OccursPrefix(response, Marker, a, j);
    }
    IndexOfFirst(response, pat, i);
    assert ReplaceFirst(response, pat, "") == response[..i] + response[i + |pat|..];
  }

  // ----- The label extractors -----

  /** A capture of `LABEL\s*(X+)`: the match starts at `at`, `\s*` takes
      `skip` characters after the label and the group takes `len`. */
  datatype Capture = Capture(at: nat, skip: nat, len: nat)

  predicate NotNewline(c: char)
  {
    c != '\n'
  }

  /** `LABEL\s*(X+)` matches at `i` taking `k` characters of white space and
      `n` characters of the class `cls`. */
  ghost predicate MatchAt(s: string, tag: string, cls: char -> bool, i: nat, k: nat, n: nat)
  {
    && OccursAt(s, tag, i)
    && i + |tag| + k + n <= |s|
    && 1 <= n
    && (forall j | i + |tag| <= j < i + |tag| + k :: IsSpace(s[j]))
    && (forall j | i + |tag| + k <= j < i + |tag| + k + n :: cls(s[j]))
  }

  /** The match a backtracking engine reports for the greedy pattern: the
      leftmost start, and there the longest `\s*`, then the longest group. */
  ghost predicate FirstMatch(s: string, tag: string, cls: char -> bool, c: Capture)
  {
    && MatchAt(s, tag, cls, c.at, c.skip, c.len)
    && (forall i: nat, k: nat, n: nat | i < c.at :: !MatchAt(s, tag, cls, i, k, n))
    && (forall k: nat, n: nat | MatchAt(s, tag, cls, c.at, k, n) :: k < c.skip || (k == c.skip && n <= c.len))
  }

  /** Where the run of `cls` characters starting at `from` ends. */
  function RunEnd(s: string, cls: char -> bool, from: nat): (e: nat)
    requires from <= |s|
    ensures from <= e <= |s|
    ensures forall j | from <= j < e :: cls(s[j])
    ensures e < |s| ==> !cls(s[e])
    decreases |s| - from
  {
    if from < |s| && cls(s[from]) then RunEnd(s, cls, from + 1) else from
  }

  /** The last position in `[lo, k]` where a `cls` character stands. */
  function LastClassAt(s: string, cls: char -> bool, lo: nat, k: nat): (r: Option<nat>)
    requires lo <= k
    ensures r.Some? ==> lo <= r.value <= k && r.value < |s| && cls(s[r.value])
    ensures r.Some? ==> forall j | r.value < j <= k && j < |s| :: !cls(s[j])
    ensures r.None? ==> forall j | lo <= j <= k && j < |s| :: !cls(s[j])
    decreases k - lo
  {
    if k < |s| && cls(s[k]) then Some(k)
    else if k == lo then None
    else LastClassAt(s, cls, lo, k - 1)
  }

  /** The match found at `i`: the longest white-space prefix after the label
      that is followed by a character of the class, then that class's run. */
  function MatchHere(s: string, tag: string, cls: char -> bool, i: nat): Option<Capture>
    requires OccursAt(s, tag, i)
  {
    var p := i + |tag|;
    match LastClassAt(s, cls, p, RunEnd(s, IsSpace, p))
    case None => None
    case Some(q) => Some(Capture(i, q - p, RunEnd(s, cls, q) - q))
  }

  /** `MatchHere` finds the greedy match at `i` when there is one. */
  lemma MatchHereCorrect(s: string, tag: string, cls: char -> bool, i: nat)
    requires OccursAt(s, tag, i)
    ensures MatchHere(s, tag, cls, i).None? ==> forall k: nat, n: nat :: !MatchAt(s, tag, cls, i, k, n)
    ensures MatchHere(s, tag, cls, i).Some? ==>
      var c := MatchHere(s, tag, cls, i).value;
      && c.at == i
      && MatchAt(s, tag, cls, i, c.skip, c.len)
      && forall k: nat, n: nat | MatchAt(s, tag, cls, i, k, n) :: k < c.skip || (k == c.skip && n <= c.len)
  {
    var p := i + |tag|;
    var m := RunEnd(s, IsSpace, p);
    forall k: nat, n: nat | MatchAt(s, tag, cls, i, k, n)
      ensures p + k <= m && p + k < |s| && cls(s[p + k]) && p + k + n <= RunEnd(s, cls, p + k)
    {
      var e := RunEnd(s, cls, p + k);
    }
  }

  /** The first match at or after position `from`. */
  function FindFrom(s: string, tag: string, cls: char -> bool, from: nat): (r: Option<Capture>)
    ensures r.Some? ==> from <= r.value.at
    ensures r.Some? ==> MatchAt(s, tag, cls, r.value.at, r.value.skip, r.value.len)
    ensures r.Some? ==> forall i: nat, k: nat, n: nat | from <= i < r.value.at :: !MatchAt(s, tag, cls, i, k, n)
    ensures r.Some? ==> forall k: nat, n: nat | MatchAt(s, tag, cls, r.value.at, k, n) ::
      k < r.value.skip || (k == r.value.skip && n <= r.value.len)
    ensures r.None? ==> forall i: nat, k: nat, n: nat | from <= i :: !MatchAt(s, tag, cls, i, k, n)
    decreases |s| - from
  {
    if from + |tag| > |s| then None
    else if !OccursAt(s, tag, from) then FindFrom(s, tag, cls, from + 1)
    else
      MatchHereCorrect(s, tag, cls, from);
      if MatchHere(s, tag, cls, from).Some? then MatchHere(s, tag, cls, from)
      else FindFrom(s, tag, cls, from + 1)
  }

  /** `s.match(/LABEL\s*(X+)/)`: the leftmost greedy match, if any. */
  function Find(s: string, tag: string, cls: char -> bool): (r: Option<Capture>)
    ensures r.Some? ==> FirstMatch(s, tag, cls, r.value)
    ensures r.None? ==> forall i: nat, k: nat, n: nat :: !MatchAt(s, tag, cls, i, k, n)
  {
    FindFrom(s, tag, cls, 0)
  }

  /** The text of the capture group. */
  function Group(s: string, tag: string, c: Capture): string
    requires c.at + |tag| + c.skip + c.len <= |s|
  {
    s[c.at + |tag| + c.skip..c.at + |tag| + c.skip + c.len]
  }

  /** The match at the first occurrence of the label, whose white space
      stops at a character that is not white space and whose group runs to
      the end of the class run, is the one the expression reports. */
  lemma FindWholeRun(s: string, tag: string, cls: char -> bool, c: Capture)
    requires MatchAt(s, tag, cls, c.at, c.skip, c.len)
    requires forall j: nat | j < c.at :: !OccursAt(s, tag, j)
    requires !IsSpace(s[c.at + |tag| + c.skip])
    requires c.at + |tag| + c.skip + c.len == |s| || !cls(s[c.at + |tag| + c.skip + c.len])
    ensures Find(s, tag, cls) == Some(c)
  {
  }

  /** `analysis.match(/CURRENT_RISK:\s*(\d+)/)` read with `parseInt`. */
  function CurrentRisk(analysis: string): Option<nat>
  {
    match Find(analysis, RiskLabel, IsDigit)
    case None => None
    case Some(c) => Some(DigitsValue(Group(analysis, RiskLabel, c)))
  }

  /** The risk read is the decimal value of the digits of the first greedy
      match of the label, and there is none exactly when nothing matches. */
  lemma RiskIsFirstMatch(analysis: string)
    ensures CurrentRisk(analysis).None? ==> forall i: nat, k: nat, n: nat :: !MatchAt(analysis, RiskLabel, IsDigit, i, k, n)
    ensures CurrentRisk(analysis).Some? ==> exists c ::
      FirstMatch(analysis, RiskLabel, IsDigit, c) && CurrentRisk(analysis).value == DigitsValue(Group(analysis, RiskLabel, c))
  {
  }

  /** `analysis.match(/TARGET_PERSONA:\s*([^\n]+)/)`, its group trimmed. */
  function TargetPersona(analysis: string): Option<string>
  {
    match Find(analysis, PersonaLabel, NotNewline)
    case None => None
    case Some(c) => Some(Trim(Group(analysis, PersonaLabel, c)))
  }

  /** The persona read is the trimmed rest of the line of the first greedy
      match of the label, and there is none exactly when nothing matches. */
  lemma PersonaIsFirstMatch(analysis: string)
    ensures TargetPersona(analysis).None? ==> forall i: nat, k: nat, n: nat :: !MatchAt(analysis, PersonaLabel, NotNewline, i, k, n)
    ensures TargetPersona(analysis).Some? ==> exists c ::
      FirstMatch(analysis, PersonaLabel, NotNewline, c) && TargetPersona(analysis).value == Trim(Group(analysis, PersonaLabel, c))
  {
  }

  /** The white space after the risk label may cross a line break, and the
      whole digit run is read, with no upper bound. */
  lemma RiskAcrossLineBreak()
    ensures CurrentRisk(RiskLabel + "\n 250") == Some(250)
  {
    RiskLineMatch();
    ReadTwoFifty();
  }

  lemma RiskLineMatch()
    ensures var s := RiskLabel + "\n 250";
      Find(s, RiskLabel, IsDigit) == Some(Capture(0, 2, 3)) && Group(s, RiskLabel, Capture(0, 2, 3)) == "250"
  {
    var s := RiskLabel + "\n 250";
    assert OccursAt(s, RiskLabel, 0);
    assert MatchAt(s, RiskLabel, IsDigit, 0, 2, 3);
    FindWholeRun(s, RiskLabel, IsDigit, Capture(0, 2, 3));
  }

  lemma ReadTwoFifty()
    ensures AllDigits("250") && DigitsValue("250") == 250
  {
    assert DigitsValue("2") == 2;
    assert DigitsValue("25") == 25;
  }

  /** When only white space follows the persona label, the engine gives the
      last space back to the group, so the persona read is empty. */
  lemma PersonaCanBeEmpty()
    ensures TargetPersona(PersonaLabel + "  ") == Some("")
  {
    var s := PersonaLabel + "  ";
    assert OccursAt(s, PersonaLabel, 0);
    assert MatchAt(s, PersonaLabel, NotNewline, 0, 1, 1);
    var c := Find(s, PersonaLabel, NotNewline).value;
    assert c == Capture(0, 1, 1);
    assert Group(s, PersonaLabel, c) == " ";
    TrimEmpty(" ");
  }

  /** Without an analysis block neither label is found. */
  lemma NoLabelsWithoutAnalysis()
    ensures CurrentRisk("").None? && TargetPersona("").None?
  {
  }

  // ----- The state updates of a reply -----

  /** The persona updater: the persona becomes current and joins the end of
      the timeline unless it is already on it, so the timeline stays free of
      duplicates and keeps its order. */
  function ApplyPersona(prev: SessionState, persona: string): (r: SessionState)
    ensures r.currentPersona == Some(persona)
    ensures persona in r.personaTimeline
    ensures |r.personaTimeline| == |prev.personaTimeline| + (if persona in prev.personaTimeline then 0 else 1)
    ensures r.personaTimeline[..|prev.personaTimeline|] == prev.personaTimeline
    ensures Session.NoDuplicates(prev.personaTimeline) ==> Session.NoDuplicates(r.personaTimeline)
    ensures r.(currentPersona := prev.currentPersona, personaTimeline := prev.personaTimeline) == prev
  {
    var timeline := if persona in prev.personaTimeline then prev.personaTimeline else prev.personaTimeline + [persona];
    prev.(currentPersona := Some(persona), personaTimeline := timeline)
  }

  /** Naming the same persona twice has the effect of naming it once. */
  lemma ApplyPersonaIdempotent(s: SessionState, persona: string)
    ensures ApplyPersona(ApplyPersona(s, persona), persona) == ApplyPersona(s, persona)
  {
  }

  /** The two label updaters, in the order the handler queues them: a label
      that is found replaces the field, a missing one leaves it as it was. */
  function AnalysisUpdates(prev: SessionState, analysis: string): (r: SessionState)
    ensures r.riskScore == match CurrentRisk(analysis) case Some(v) => v case None => prev.riskScore
    ensures TargetPersona(analysis).None? ==>
      r.currentPersona == prev.currentPersona && r.personaTimeline == prev.personaTimeline
    ensures TargetPersona(analysis).Some? ==>
      && r.currentPersona == TargetPersona(analysis)
      && r.personaTimeline == ApplyPersona(prev, TargetPersona(analysis).value).personaTimeline
    ensures r.(riskScore := prev.riskScore, currentPersona := prev.currentPersona, personaTimeline := prev.personaTimeline) == prev
  {
    var risked := match CurrentRisk(analysis)
      case Some(v) => prev.(riskScore := v)
      case None => prev;
    match TargetPersona(analysis)
    case Some(p) => ApplyPersona(risked, p)
    case None => risked
  }

  /** Speech is requested only when call mode is configured and no live call
      is open, judged on the state the cycle was started from. */
  predicate WantsSpeech(view: SessionState)
  {
    !view.isCallActive && view.voiceConfig.isCallModeActive
  }

  /** The audio attached to the agent message. */
  function ReplyAudio(
    view: SessionState, text: string,
    synthesize: Gateway.SpeechRequest -> Result<Option<string>, Gateway.Failure>): (r: Option<string>)
    ensures !WantsSpeech(view) ==> r == None
    ensures WantsSpeech(view) ==> r == Gateway.GenerateSpeech(text, view.voiceConfig, synthesize)
  {
    if WantsSpeech(view) then Gateway.GenerateSpeech(text, view.voiceConfig, synthesize) else None
  }

  /** The messages a reply appends: the internal analysis, when there is
      one, then the persona-facing reply. */
  function ReplyMessages(response: string, audio: Option<string>, now: nat): (ms: seq<Message>)
    ensures |ms| == if AnalysisText(response) == "" then 1 else 2
    ensures ms[|ms| - 1] == Message("ai-" + NatText(now), ShieldAi, PersonaText(response), now, audio)
    ensures AnalysisText(response) != "" ==>
      ms[0] == Message("internal-" + NatText(now), Internal, Trim(AnalysisText(response)), now, None)
  {
    var a := AnalysisText(response);
    var reply := Message("ai-" + NatText(now), ShieldAi, PersonaText(response), now, audio);
    if a == "" then [reply]
    else [Message("internal-" + NatText(now), Internal, Trim(a), now, None), reply]
  }

  /** What one response cycle leaves behind: the new state and the audio
      payload handed to one-shot playback, if any. */
  datatype Effect = Effect(state: SessionState, played: Option<string>)

  /** A non-terminal reply: the label updates, when there is an analysis,
      then the new messages at the end of the history; a non-empty audio
      payload is played. */
  function HandleReply(
    prev: SessionState, view: SessionState, response: string,
    synthesize: Gateway.SpeechRequest -> Result<Option<string>, Gateway.Failure>, now: nat): (r: Effect)
    ensures var audio := ReplyAudio(view, PersonaText(response), synthesize);
      r.state == AnalysisUpdates(prev, AnalysisText(response)).(messages := prev.messages + ReplyMessages(response, audio, now))
    ensures var audio := ReplyAudio(view, PersonaText(response), synthesize);
      (r.played.Some? <==> audio.Some? && audio.value != "") && (r.played.Some? ==> r.played == audio)
  {
    var a := AnalysisText(response);
    NoLabelsWithoutAnalysis();
    var updated := if a != "" then AnalysisUpdates(prev, a) else prev;
    var audio := ReplyAudio(view, PersonaText(response), synthesize);
    var state := updated.(messages := updated.messages + ReplyMessages(response, audio, now));
    var played := if audio.Some? && audio.value != "" then audio else None;
    Effect(state, played)
  }

  /** The messages of `head + tail`, position by position. */
  lemma Appended(head: seq<Message>, tail: seq<Message>)
    ensures |head + tail| == |head| + |tail|
    ensures (head + tail)[..|head|] == head
    ensures forall k | |head| <= k < |head| + |tail| :: (head + tail)[k] == tail[k - |head|]
  {
    assert (head + tail)[..|head|] == head;
  }

  /** The reply is terminal exactly when its trimmed text opens with a brace
      and it decodes as a report. */
  predicate Terminal(response: string, parseJson: string -> Option<SessionReport>)
  {
    StartsWithBrace(response) && parseJson(response).Some?
  }

  /** The body of `handleAgentResponse` after the completion call: a decoded
      report ends the session; anything else, including text that opens with
      a brace but does not decode, is handled as a reply. */
  function HandleResponse(
    prev: SessionState, view: SessionState, response: string,
    parseJson: string -> Option<SessionReport>,
    synthesize: Gateway.SpeechRequest -> Result<Option<string>, Gateway.Failure>, now: nat): (r: Effect)
    ensures Terminal(response, parseJson) ==> r.state == ApplyReport(prev, parseJson(response).value) && r.played.None?
    ensures !Terminal(response, parseJson) ==> r == HandleReply(prev, view, response, synthesize, now)
  {
    if StartsWithBrace(response) then
      match parseJson(response)
      case Some(report) => Effect(ApplyReport(prev, report), None)
      case None => HandleReply(prev, view, response, synthesize, now)
    else HandleReply(prev, view, response, synthesize, now)
  }

  /** `handleAgentResponse(history)`: the non-internal history goes to the
      gateway with the voice settings of the state the cycle started from;
      a transport failure changes nothing. */
  function HandleAgentResponse(
    prev: SessionState, view: SessionState, history: seq<Message>,
    showNumber: real -> string,
    complete: Gateway.GenerateRequest -> Result<string, Gateway.Failure>,
    parseJson: string -> Option<SessionReport>,
    synthesize: Gateway.SpeechRequest -> Result<Option<string>, Gateway.Failure>, now: nat): (r: Effect)
    ensures var reply := complete(Gateway.BuildRequest(ModelHistory(history), view.voiceConfig, showNumber));
      && (reply.Failure? ==> r == Effect(prev, None))
      && (reply.Success? ==> r == HandleResponse(prev, view, reply.value, parseJson, synthesize, now))
  {
    match Gateway.ProcessMessage(ModelHistory(history), view.voiceConfig, showNumber, complete)
    case Failure(_) => Effect(prev, None)
    case Success(response) => HandleResponse(prev, view, response, parseJson, synthesize, now)
  }

  // ----- Properties of a whole cycle -----

  /** A reply without the marker adds exactly one agent message holding the
      trimmed reply, and leaves the risk score and the persona alone. */
  lemma PlainReply(
    prev: SessionState, view: SessionState, response: string,
    synthesize: Gateway.SpeechRequest -> Result<Option<string>, Gateway.Failure>, now: nat)
    requires IndexOf(response, Marker).None?
    ensures var r := HandleReply(prev, view, response, synthesize, now);
      && r.state.messages[..|prev.messages|] == prev.messages
      && |r.state.messages| == |prev.messages| + 1
      && r.state.messages[|prev.messages|].role == ShieldAi
      && r.state.messages[|prev.messages|].content == Trim(response)
      && r.state.(messages := prev.messages) == prev
  {
    NoMarkerReply(response);
    NoLabelsWithoutAnalysis();
  }

  lemma NormalReplyTrimmed()
    ensures Trim("just a normal reply") == "just a normal reply"
    ensures !StartsWithBrace("just a normal reply")
  {
    var response := "just a normal reply";
    assert response[0] == 'j' && response[|response| - 1] == 'y';
    TrimUnpadded(response);
  }

  lemma NormalReplyHasNoMarker()
    ensures IndexOf("just a normal reply", Marker).None?
  {
    var response := "just a normal reply";
    assert response[0] != Marker[0] && response[1] != Marker[0];
  }

  /** A plain sentence becomes the one agent message, unchanged. */
  lemma NormalReplyExample(
    prev: SessionState, view: SessionState,
    synthesize: Gateway.SpeechRequest -> Result<Option<string>, Gateway.Failure>, now: nat)
    ensures var r := HandleResponse(prev, view, "just a normal reply", _ => None, synthesize, now);
      && r.state.messages[..|prev.messages|] == prev.messages
      && |r.state.messages| == |prev.messages| + 1
      && r.state.messages[|prev.messages|].role == ShieldAi
      && r.state.messages[|prev.messages|].content == "just a normal reply"
      && r.state.(messages := prev.messages) == prev
  {
    NormalReplyHasNoMarker();
    NormalReplyTrimmed();
    PlainReply(prev, view, "just a normal reply", synthesize, now);
  }

  /** A reply with the marker at `i`: the agent message holds the text
      before the marker joined to the text after the analysis, trimmed, where
      the analysis is as `AnalysisAfterMarker` delimits it. */
  lemma MarkedReply(
    prev: SessionState, view: SessionState, response: string,
    synthesize: Gateway.SpeechRequest -> Result<Option<string>, Gateway.Failure>, now: nat, i: nat)
    requires IndexOf(response, Marker) == Some(i)
    ensures var ms := HandleReply(prev, view, response, synthesize, now).state.messages;
      && i + |Marker| + |AnalysisText(response)| <= |response|
      && ms[|ms| - 1].content == Trim(response[..i] + response[i + |Marker| + |AnalysisText(response)|..])
  {
    ReplyWithoutAnalysis(response, i);
    Appended(prev.messages, ReplyMessages(response, ReplyAudio(view, PersonaText(response), synthesize), now));
  }

  /** A reply keeps the session invariants. */
  lemma ReplyKeepsConsistency(
    prev: SessionState, view: SessionState, response: string,
    synthesize: Gateway.SpeechRequest -> Result<Option<string>, Gateway.Failure>, now: nat)
    requires Session.Consistent(prev)
    ensures Session.Consistent(HandleReply(prev, view, response, synthesize, now).state)
  {
    var a := AnalysisText(response);
    if TargetPersona(a).Some? {
      var risked := match CurrentRisk(a) case Some(v) => prev.(riskScore := v) case None => prev;
      assert risked.personaTimeline == prev.personaTimeline;
    }
  }

  /** Every response cycle keeps the session invariants. */
  lemma CycleKeepsConsistency(
    prev: SessionState, view: SessionState, history: seq<Message>,
    showNumber: real -> string,
    complete: Gateway.GenerateRequest -> Result<string, Gateway.Failure>,
    parseJson: string -> Option<SessionReport>,
    synthesize: Gateway.SpeechRequest -> Result<Option<string>, Gateway.Failure>, now: nat)
    requires Session.Consistent(prev)
    ensures Session.Consistent(HandleAgentResponse(prev, view, history, showNumber, complete, parseJson, synthesize, now).state)
  {
    var reply := complete(Gateway.BuildRequest(ModelHistory(history), view.voiceConfig, showNumber));
    if reply.Success? {
      ReplyKeepsConsistency(prev, view, reply.value, synthesize, now);
    }
  }

  /** A report that arrives during a live call ends the session but leaves
      the call flag raised, and `toggleCall` then ignores the hang-up. */
  lemma ReportDuringCall(
    prev: SessionState, view: SessionState, response: string,
    parseJson: string -> Option<SessionReport>,
    synthesize: Gateway.SpeechRequest -> Result<Option<string>, Gateway.Failure>, now: nat)
    requires prev.isCallActive && Terminal(response, parseJson)
    ensures var s := HandleResponse(prev, view, response, parseJson, synthesize, now).state;
      s.isCallActive && !s.isActive && Session.ToggleCall(s, s).command == Session.Ignore
  {
  }
}
