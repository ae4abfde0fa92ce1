/** The records of the client (types.ts) and its static data (constants.tsx). */
module Types {
  import opened Wrappers

  /** Who authored a message: the suspected scammer, the agent's persona, or
      the agent's private analysis. */
  datatype MessageRole = Scammer | ShieldAi | Internal

  /** The string value each role carries on the wire. */
  function RoleValue(role: MessageRole): string
  {
    match role
    case Scammer => "scammer"
    case ShieldAi => "shield_ai"
    case Internal => "internal"
  }

  /** One conversational turn. `audio` is a base64 payload of synthesized
      speech; the optional `metadata` of the source is never set and is not
      modelled. */
  datatype Message = Message(
    id: string,
    role: MessageRole,
    content: string,
    timestamp: nat,
    audio: Option<string>)

  datatype VoiceName = Kore | Puck | Charon | Fenrir | Zephyr

  function VoiceNameText(v: VoiceName): string
  {
    match v
    case Kore => "Kore"
    case Puck => "Puck"
    case Charon => "Charon"
    case Fenrir => "Fenrir"
    case Zephyr => "Zephyr"
  }

  datatype VoiceConfig = VoiceConfig(
    voiceName: VoiceName,
    speed: real,
    languageStyle: string,
    accent: string,
    isCallModeActive: bool)

  /** The five lists of extracted fraud indicators. */
  datatype Entities = Entities(
    phoneNumbers: seq<string>,
    upiIds: seq<string>,
    bankAccounts: seq<string>,
    ifscCodes: seq<string>,
    links: seq<string>)

  const NoEntities := Entities([], [], [], [], [])

  /** The entity lists as the model reports them: any of them, and the whole
      object, may be missing from the decoded JSON. */
  datatype ReportedEntities = ReportedEntities(
    phoneNumbers: Option<seq<string>>,
    upiIds: Option<seq<string>>,
    bankAccounts: Option<seq<string>>,
    ifscCodes: Option<seq<string>>,
    links: Option<seq<string>>)

  datatype BehavioralProfile = BehavioralProfile(
    urgency: string,
    authorityImpersonation: string,
    escalationSpeed: string,
    botOrHuman: string,
    behaviorSignals: Option<seq<string>>)

  /** The terminal intelligence report, as decoded from the model's JSON.
      `riskScore` is `None` when the field is absent or null. */
  datatype SessionReport = SessionReport(
    scamType: string,
    riskScore: Option<int>,
    riskExplanation: string,
    extractedEntities: Option<ReportedEntities>,
    behavioralProfile: BehavioralProfile,
    personaTimeline: seq<string>,
    initialPersona: string,
    finalPersona: string,
    callModeUsed: bool,
    linkAnalysis: string,
    confidenceLevel: string)

  datatype BehavioralSignals = BehavioralSignals(urgency: int, authority: int, escalation: int)

  const NoSignals := BehavioralSignals(0, 0, 0)

  /** Everything the client knows about the current engagement. */
  datatype SessionState = SessionState(
    isActive: bool,
    messages: seq<Message>,
    riskScore: int,
    currentPersona: Option<string>,
    personaTimeline: seq<string>,
    entities: Entities,
    isTerminated: bool,
    finalReport: Option<SessionReport>,
    voiceConfig: VoiceConfig,
    behavioralSignals: BehavioralSignals,
    isCallActive: bool)

  const DefaultVoice := VoiceConfig(Kore, 1.0, "Hinglish", "Neutral Indian", false)

  /** The state the client starts in, before any session. */
  const InitialState := SessionState(
    false, [], 0, None, [], NoEntities, false, None, DefaultVoice, NoSignals, false)

  datatype Persona = Persona(id: string, name: string, tech: string, personality: string)

  const PersonaLibrary: seq<Persona> := [
    Persona("pensioner", "Retired Army Officer", "Very Low",
      "Disciplined but confused, trusts authority, worried about pension."),
    Persona("student", "Final Year Graduate", "High",
      "Desperate for job, uses slang, anxious about future."),
    Persona("pro", "Corporate Manager", "Moderate",
      "Busy, logical, slightly arrogant, checks facts but falls for urgency."),
    Persona("business", "Kirana Store Owner", "Low",
      "Direct, counts every rupee, scared of bank freezes, speaks rough Hinglish."),
    Persona("homemaker", "Anxious Mother", "Low",
      "Vulnerable, worried about kids' safety, very polite and apologetic."),
    Persona("influencer", "TikTok/Reels Creator", "Extreme",
      "Self-centered, fast-talker, obsessed with online presence, gullible to 'verification' badges."),
    Persona("nri", "Overseas IT Worker", "High",
      "Confused by Indian regulations, impatient, assumes things are digital but messy."),
    Persona("cab_driver", "App-based Driver", "Moderate",
      "Street smart but fears legal trouble, depends on phone for livelihood, very reactive.")
  ]

  /** The persona names, in library order. */
  function PersonaNames(): (names: seq<string>)
    ensures |names| == |PersonaLibrary|
    ensures forall i | 0 <= i < |names| :: names[i] == PersonaLibrary[i].name
  {
    seq(|PersonaLibrary|, i requires 0 <= i < |PersonaLibrary| => PersonaLibrary[i].name)
  }

  datatype ScamTemplate = ScamTemplate(id: string, name: string, initialMessage: string)

  const ScamTemplates: seq<ScamTemplate> := [
    ScamTemplate("kyc", "KYC / Bank Block",
      "DEAR CUSTOMER, YOUR HDFC BANK ACCOUNT IS BLOCKED DUE TO PENDING KYC. PLEASE UPDATE AT https://hdfc-kyc-verify.me/login OR CALL BANK OFFICER AT 9182736450."),
    ScamTemplate("job", "Remote Job Scam",
      "Hello! I'm Priya from HR department. We saw your resume. Earn \U{20B9}8,000 daily by rating hotels on Google Maps. No investment. Reply 'YES' to start."),
    ScamTemplate("digital_arrest", "CBI / Police Threat",
      "This is Cyber Cell Mumbai. A parcel in your name containing illegal substances has been intercepted at Customs. You are under Digital Arrest. Stay on this chat or we dispatch team."),
    ScamTemplate("loan", "Pre-approved Loan",
      "Congratulation! Your pre-approved loan of \U{20B9}5,00,000 is ready for disbursal. 0% interest for 12 months. Click to claim: https://easy-loan-instantly.com/apply"),
    ScamTemplate("lottery", "KBC / Lottery Win",
      "CONGRATULATIONS! You have won \U{20B9}25 Lakhs in KBC Lucky Draw. Check your lottery number 8829 on WhatsApp. WhatsApp us: +91 70001 23456"),
    ScamTemplate("sextortion", "Sextortion / Blackmail",
      "I have your video recording from last night. If you don't want me to send it to your family, pay \U{20B9}20,000 immediately to this UPI: blackmail@okaxis."),
    ScamTemplate("electricity", "Electricity Bill Pending",
      "Dear Consumer, your electricity connection will be disconnected tonight at 9:30 PM because your previous month's bill was not updated. Contact 93321 04432 immediately.")
  ]
}
