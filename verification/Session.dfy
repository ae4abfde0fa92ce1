/** The session state machine of App.tsx: every `setSession(prev => ...)`
    updater as a function from one `SessionState` to the next. Clock readings
    (`Date.now()`) and the `Math.random()` draw are parameters. */
module Session {
  import opened Wrappers
  import opened Text
  import opened Types

  /** An updater's outcome: the new state, and the history an agent response
      cycle is then started on, if one is. */
  datatype Step = Step(state: SessionState, respondTo: Option<seq<Message>>)

  predicate NoDuplicates(xs: seq<string>)
  {
    forall i, j | 0 <= i < j < |xs| :: xs[i] != xs[j]
  }

  /** Session invariants the updaters keep: a report exists exactly when
      the session is terminated, a terminated session is not active, and the
      persona timeline has no duplicates. */
  ghost predicate Consistent(s: SessionState)
  {
    && (s.finalReport.Some? <==> s.isTerminated)
    && !(s.isActive && s.isTerminated)
    && NoDuplicates(s.personaTimeline)
  }

  /** No session yet: the state in which the template picker is shown. */
  predicate Idle(s: SessionState)
  {
    !s.isActive && !s.isTerminated
  }

  /** `Math.floor(random * PERSONA_LIBRARY.length)` for a draw in [0, 1). */
  function PersonaIndex(random: real): (k: nat)
    requires 0.0 <= random < 1.0
    ensures k < |PersonaLibrary|
  {
    (random * |PersonaLibrary| as real).Floor
  }

  /** `startSession(template?)`. */
  function StartSession(prev: SessionState, template: Option<ScamTemplate>, random: real, now: nat): (r: Step)
    requires 0.0 <= random < 1.0
    ensures r.state.isActive && !r.state.isTerminated && !r.state.isCallActive
    ensures template.None? ==> r.state.messages == [] && r.state.riskScore == 0
    ensures template.Some? ==>
      && |r.state.messages| == 1
      && r.state.messages[0].role == Scammer
      && r.state.messages[0].content == template.value.initialMessage
      && r.state.riskScore == 40
    ensures r.state.currentPersona.Some? && r.state.currentPersona.value in PersonaNames()
    ensures r.state.personaTimeline == [] && r.state.entities == NoEntities
    ensures r.state.voiceConfig == prev.voiceConfig
    ensures r.state.behavioralSignals == prev.behavioralSignals
    ensures r.state.finalReport == prev.finalReport
    ensures r.respondTo == if template.Some? then Some(r.state.messages) else None
  {
    var opening := match template
      case None => []
      case Some(t) => [Message(NatText(now), Scammer, t.initialMessage, now, None)];
    var k := PersonaIndex(random);
    assert PersonaLibrary[k].name == PersonaNames()[k];
    var state := prev.(
      isActive := true,
      messages := opening,
      riskScore := if template.Some? then 40 else 0,
      currentPersona := Some(PersonaLibrary[k].name),
      personaTimeline := [],
      entities := NoEntities,
      isTerminated := false,
      isCallActive := false);
    Step(state, if template.Some? then Some(opening) else None)
  }

  /** The session part of `stopCall`: the call flag is cleared and nothing
      else changes. */
  function StopCall(prev: SessionState): (r: SessionState)
    ensures !r.isCallActive
    ensures r.(isCallActive := prev.isCallActive) == prev
  {
    prev.(isCallActive := false)
  }

  lemma StopCallIdempotent(s: SessionState)
    ensures StopCall(StopCall(s)) == StopCall(s)
  {
  }

  /** `resetSession`: after the call teardown, every field returns to its
      initial value except the voice configuration, which is kept. */
  function ResetSession(prev: SessionState): (r: SessionState)
    ensures r == InitialState.(voiceConfig := prev.voiceConfig)
  {
    var stopped := StopCall(prev);
    SessionState(
      false, [], 0, None, [], NoEntities, false, None,
      stopped.voiceConfig, BehavioralSignals(0, 0, 0), false)
  }

  /** What `toggleCall` does besides updating the state. */
  datatype CallCommand = Ignore | HangUp | Dial

  datatype Toggle = Toggle(state: SessionState, command: CallCommand)

  /** `toggleCall`: the guard reads the rendered state `view`, the updater
      the latest state `prev`. Nothing happens outside an active session;
      an open call is stopped; otherwise the call flag is raised before the
      live connection is dialled. Only the call flag ever changes. */
  function ToggleCall(view: SessionState, prev: SessionState): (r: Toggle)
    ensures !view.isActive ==> r == Toggle(prev, Ignore)
    ensures view.isActive && view.isCallActive ==> r == Toggle(StopCall(prev), HangUp)
    ensures view.isActive && !view.isCallActive ==> r.command == Dial && r.state.isCallActive
    ensures r.state.(isCallActive := prev.isCallActive) == prev
  {
    if !view.isActive then Toggle(prev, Ignore)
    else if view.isCallActive then Toggle(StopCall(prev), HangUp)
    else Toggle(prev.(isCallActive := true), Dial)
  }

  /** On a current render, toggling flips the call flag of an active session
      and leaves an inactive one alone. */
  lemma ToggleFlips(s: SessionState)
    ensures ToggleCall(s, s).state.isCallActive == (s.isCallActive != s.isActive)
  {
  }

  /** `sendMessage`: input that is empty or white space only is ignored.
      Otherwise the new history is the rendered history `view.messages` with
      exactly one scammer message carrying the untrimmed input at the end; it
      replaces the messages of the latest state `prev`, nothing else changes,
      and a response cycle starts on it. */
  function SendMessage(view: SessionState, prev: SessionState, input: string, now: nat): (r: Step)
    ensures AllSpace(input) ==> r == Step(prev, None)
    ensures !AllSpace(input) ==>
      && |r.state.messages| == |view.messages| + 1
      && r.state.messages[..|view.messages|] == view.messages
      && r.state.messages[|view.messages|].role == Scammer
      && r.state.messages[|view.messages|].content == input
      && r.state == prev.(messages := r.state.messages)
      && r.respondTo == Some(r.state.messages)
  {
    TrimEmpty(input);
    if Trim(input) == [] then Step(prev, None)
    else
      var history := view.messages + [Message(NatText(now), Scammer, input, now, None)];
      Step(prev.(messages := history), Some(history))
  }

  /** The history is built from the render: a live text appended after the
      render and before the send is overwritten by the send. */
  lemma SendAfterLiveText(s: SessionState, text: string, input: string, t1: nat, t2: nat)
    requires text != [] && !AllSpace(input)
    ensures var live := AppendLiveText(s, text, t1);
      var sent := SendMessage(s, live, input, t2).state;
      && live.messages[|s.messages|].role == ShieldAi
      && |sent.messages| == |live.messages|
      && sent.messages[|s.messages|].role == Scammer
  {
  }

  /** A text part of a live server message: a non-empty text becomes one
      more agent message at the end; nothing else changes. */
  function AppendLiveText(prev: SessionState, text: string, now: nat): (r: SessionState)
    ensures text == [] ==> r == prev
    ensures text != [] ==>
      && |r.messages| == |prev.messages| + 1
      && r.messages[..|prev.messages|] == prev.messages
      && r.messages[|prev.messages|].role == ShieldAi
      && r.messages[|prev.messages|].content == text
    ensures r.(messages := prev.messages) == prev
  {
    if text == [] then prev
    else prev.(messages := prev.messages + [Message("live-" + NatText(now), ShieldAi, text, now, None)])
  }

  /** The updaters keep the session invariants; a session started from the
      idle state, and the state after a reset, satisfy them outright. */
  lemma UpdatersKeepConsistency(s: SessionState, view: SessionState, template: Option<ScamTemplate>, random: real, input: string, text: string, now: nat)
    requires 0.0 <= random < 1.0
    ensures Consistent(InitialState)
    ensures Consistent(ResetSession(s))
    ensures Consistent(s) && Idle(s) ==> Consistent(StartSession(s, template, random, now).state)
    ensures Consistent(s) ==> Consistent(StopCall(s))
    ensures Consistent(s) ==> Consistent(ToggleCall(view, s).state)
    ensures Consistent(s) ==> Consistent(SendMessage(view, s, input, now).state)
    ensures Consistent(s) ==> Consistent(AppendLiveText(s, text, now))
  {
  }
}
