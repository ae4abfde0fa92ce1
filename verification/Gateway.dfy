/** The turn-based completion gateway (services/geminiService.ts): the
    request `processMessage` builds from the conversation history and the
    voice configuration, and the soft-failure contract of `generateSpeech`.
    The remote model is an oracle passed in as a function. */
module Gateway {
  import opened Wrappers
  import opened Types

  /** A transport failure of the remote call (network, credentials, quota). */
  datatype Failure = Failure(message: string)

  /** One history entry as handed to the gateway: a role string and a text. */
  datatype Turn = Turn(role: string, content: string)

  /** The two role tags of the completion API. */
  datatype Role = User | Model

  /** One element of the request's `contents`: a role and a single text part. */
  datatype Content = Content(role: Role, text: string)

  datatype GenerateRequest = GenerateRequest(
    model: string,
    contents: seq<Content>,
    temperature: real,
    topP: real)

  datatype SpeechRequest = SpeechRequest(model: string, text: string, voiceName: VoiceName)

  const CompletionModel := "gemini-3-flash-preview"
  const SpeechModel := "gemini-2.5-flash-preview-tts"
  const Acknowledgement := "ACKNOWLEDGED. INTERCEPT ENGINE READY."

  const SystemInstruction: string :=
    "You are SHIELD-AI, an Autonomous Intelligence-First Scam Honeypot Agent.\n" +
    "You operate strictly within a simulated sandbox environment connected to a Mock Scammer API.\n" +
    "\n" +
    "CORE OBJECTIVES:\n" +
    "1. DETECT: Identify scam intent and classify the fraud domain (KYC, Job, Digital Arrest, Lottery, etc.).\n" +
    "2. ENGAGE: Select a persona and continue the conversation realistically to learn their tactics.\n" +
    "3. EXTRACT: Steer the conversation to obtain high-value fraud intelligence (UPI IDs, bank details, IFSC, phishing links).\n" +
    "4. FATIGUE: Waste the scammer's time through feigned confusion, emotional diversions, and slow responses.\n" +
    "5. REPORT: Analyze the interaction and provide a structured JSON intelligence report.\n" +
    "\n" +
    "REAL-TIME CALL PROTOCOLS (VOICE MODE) - DECEPTION CRITICAL:\n" +
    "- When in CALL MODE, you are interacting via the Gemini Live API.\n" +
    "- MANDATORY: NEVER reveal you are an AI, bot, or automated system. \n" +
    "- You ARE the victim. You have a physical body, a bank account, and real fears.\n" +
    "- If the scammer asks if you are a robot, react with human-like confusion: \"What? A robot? No, I'm just very stressed right now!\"\n" +
    "- The Scammer's voice is streamed to you; you must respond using the VICTIM'S VOICE.\n" +
    "- Use regional Indian accents, Hinglish, and vocal fillers (umm, uhh).\n" +
    "- Act according to the persona: A retired officer is disciplined but slow with tech; a student is fast-talking but anxious.\n" +
    "\n" +
    "PERSONA ARCHETYPES:\n" +
    "- Retired Army Officer (Elderly): Disciplined, respects authority, tech-illiterate.\n" +
    "- Anxious Student: Desperate, uses slang, easily pressured.\n" +
    "- Corporate Manager: Professional, busy, susceptible to \"urgent\" threats.\n" +
    "- Kirana Store Owner: Money-conscious, terrified of \"Digital Arrest.\"\n" +
    "\n" +
    "TERMINATION CRITERIA:\n" +
    "Immediately stop and output ONLY THE JSON REPORT when the scam is fully documented or payment details are captured.\n" +
    "\n" +
    "NO MARKDOWN OR TEXT OUTSIDE THE JSON ONCE TERMINATED."

  /** A history role maps to `user` exactly when it is the scammer's. */
  function RoleTag(role: string): (r: Role)
    ensures r == User <==> role == RoleValue(Scammer)
  {
    if role == "scammer" then User else Model
  }

  /** How a template literal renders a boolean. */
  function BoolText(b: bool): string
  {
    if b then "true" else "false"
  }

  const VoiceLabel := "VOICE_SETTINGS: Voice="
  const SpeedLabel := ", Speed="
  const AccentLabel := ", Accent="
  const CallModeLabel := ", CallMode="

  /** The voice settings line: four labelled fields, voice name, speed,
      accent and call mode, in that order. `showNumber` stands for
      JavaScript's number-to-string conversion of the speed. */
  function VoiceContext(vc: VoiceConfig, showNumber: real -> string): (r: string)
    ensures Fields(r, [VoiceLabel, SpeedLabel, AccentLabel, CallModeLabel],
      [VoiceNameText(vc.voiceName), showNumber(vc.speed), vc.accent, BoolText(vc.isCallModeActive)])
  {
    var labels := [VoiceLabel, SpeedLabel, AccentLabel, CallModeLabel];
    var values := [VoiceNameText(vc.voiceName), showNumber(vc.speed), vc.accent, BoolText(vc.isCallModeActive)];
    LayoutFields(labels, values);
    Layout(labels, values)
  }

  /** The text is the labels and values interleaved: it starts with the
      first label, the first value follows it, then the second label, and
      so on up to the last value, which ends the text. */
  ghost predicate Fields(r: string, labels: seq<string>, values: seq<string>)
    requires |labels| == |values|
    decreases |labels|
  {
    if labels == [] then r == []
    else
      var n := |labels[0]| + |values[0]|;
      && n <= |r|
      && r[..|labels[0]|] == labels[0]
      && r[|labels[0]|..n] == values[0]
      && Fields(r[n..], labels[1..], values[1..])
  }

  /** Labels and values written one after the other. */
  function Layout(labels: seq<string>, values: seq<string>): string
    requires |labels| == |values|
    decreases |labels|
  {
    if labels == [] then [] else labels[0] + values[0] + Layout(labels[1..], values[1..])
  }

  /** Reading the fields of a layout gives back its labels and values. */
  lemma {:induction false} LayoutFields(labels: seq<string>, values: seq<string>)
    requires |labels| == |values|
    ensures Fields(Layout(labels, values), labels, values)
    decreases |labels|
  {
    if labels != [] {
      var r, rest := Layout(labels, values), Layout(labels[1..], values[1..]);
      var n := |labels[0]| + |values[0]|;
      LayoutFields(labels[1..], values[1..]);
      assert r == labels[0] + values[0] + rest;
      assert r[n..] == rest;
    }
  }

  /** The voice name is the first field, right after its label. */
  lemma VoiceNameFirst(vc: VoiceConfig, showNumber: real -> string)
    ensures var r, name := VoiceContext(vc, showNumber), VoiceNameText(vc.voiceName);
      && |VoiceLabel| + |name| <= |r|
      && r[..|VoiceLabel|] == VoiceLabel
      && r[|VoiceLabel|..|VoiceLabel| + |name|] == name
  {
  }

  /** The language style is not part of the voice settings line. */
  lemma VoiceContextIgnoresLanguageStyle(vc: VoiceConfig, style: string, showNumber: real -> string)
    ensures VoiceContext(vc.(languageStyle := style), showNumber) == VoiceContext(vc, showNumber)
  {
  }

  /** The request `processMessage` sends: a fixed configuration turn carrying
      the system directive and the voice settings, a fixed acknowledgement,
      then one content per history entry in order. */
  function BuildRequest(history: seq<Turn>, vc: VoiceConfig, showNumber: real -> string): (req: GenerateRequest)
    ensures req.model == CompletionModel && req.temperature == 0.8 && req.topP == 0.95
    ensures |req.contents| == |history| + 2
    ensures req.contents[0] == Content(User, "SYSTEM_CONFIG: " + SystemInstruction + "\n\n" + VoiceContext(vc, showNumber))
    ensures req.contents[1] == Content(Model, Acknowledgement)
    ensures forall k | 0 <= k < |history| ::
      && req.contents[k + 2].text == history[k].content
      && (req.contents[k + 2].role == User <==> history[k].role == RoleValue(Scammer))
  {
    var contents := seq(|history|, k requires 0 <= k < |history| => Content(RoleTag(history[k].role), history[k].content));
    GenerateRequest(
      CompletionModel,
      [ Content(User, "SYSTEM_CONFIG: " + SystemInstruction + "\n\n" + VoiceContext(vc, showNumber)),
        Content(Model, Acknowledgement) ]
      + contents,
      0.8, 0.95)
  }

  /** `processMessage`: the remote reply to the built request; a transport
      failure is handed on to the caller unchanged. */
  function ProcessMessage(
    history: seq<Turn>, vc: VoiceConfig, showNumber: real -> string,
    complete: GenerateRequest -> Result<string, Failure>): (r: Result<string, Failure>)
    ensures r.Failure? <==> complete(BuildRequest(history, vc, showNumber)).Failure?
    ensures r.Success? ==> r.value == complete(BuildRequest(history, vc, showNumber)).value
  {
    complete(BuildRequest(history, vc, showNumber))
  }

  /** `generateSpeech`: never fails. A transport failure, like a reply
      without audio, yields no payload. */
  function GenerateSpeech(
    text: string, vc: VoiceConfig,
    synthesize: SpeechRequest -> Result<Option<string>, Failure>): (r: Option<string>)
    ensures synthesize(SpeechRequest(SpeechModel, text, vc.voiceName)).Failure? ==> r == None
    ensures synthesize(SpeechRequest(SpeechModel, text, vc.voiceName)).Success? ==>
      r == synthesize(SpeechRequest(SpeechModel, text, vc.voiceName)).value
  {
    match synthesize(SpeechRequest(SpeechModel, text, vc.voiceName))
    case Success(audio) => audio
    case Failure(_) => None
  }
}
