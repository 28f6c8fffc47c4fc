/** The fixed texts of the redraft endpoint's system prompt and user turn. */
module ReviewEmailText {

  // The two long fixed texts are written in short pieces so that the verifier can see which
  // characters they hold.
  const RoleStatement: string :=
    "You are an expert " + "email communication " + "coach. Your task is " + "to redraft emails "
    + "based on the " + "specific " + "instructions " + "provided by the user."
  const DefaultContext: string := "General business correspondence"
  const LevelMarker: string := "Recipient Technical Level: "
  const InstructionsMarker: string := "User Instructions: "
  const Guidelines: string :=
    "Guidelines:\n" + FollowLine + MaintainLine + EnsureLine + OnlyLine + ConsiderLine
  const FollowLine: string :=
    "- Follow the user's " + "instructions " + "precisely\n"
  const MaintainLine: string :=
    "- Maintain the core " + "message and intent " + "of the original " + "email\n"
  const EnsureLine: string :=
    "- Ensure the " + "redrafted email is " + "professional and " + "well-structured\n"
  const OnlyLine: string :=
    "- Only provide the " + "redrafted email - " + "no analysis, " + "scores, or " + "explanations\n"
  const ConsiderLine: string :=
    "- Consider the " + "recipient's " + "technical knowledge " + "level when choosing " + "language and " + "explanations"
  const Fence: string := "\"\"\""
  const UserPreamble: string :=
    "Please redraft this email based on the instructions provided:\n\nOriginal Email:\n"
  const UserClosing: string := "\n\nProvide only the redrafted email."

  const RecipientOpen: string := "The recipient ("

  const RecipientHas: string := ") has "
  const BeginnerTail: string :=
    "beginner" + "-level technical knowledge. Use simple, non-technical language and provide step-by-step explanations. Avoid jargon and technical acronyms."
  const IntermediateTail: string :=
    "intermediate" + " technical knowledge. You can use some technical terms but provide brief explanations when needed."
  const AdvancedTail: string :=
    "advanced" + " technical knowledge. You can use technical language and assume familiarity with complex concepts."

  /** The fixed texts that sit around the user's own text hold no capital R, the first
      character of the level marker. */
  lemma FixedTextsLackR()
    ensures LevelMarker[0] == 'R'
    ensures 'R' !in RoleStatement && 'R' !in Guidelines
    ensures 'R' !in "Context: " && 'R' !in InstructionsMarker
  {
    RoleLacksR();
    FollowLacksR();
    MaintainLacksR();
    EnsureLacksR();
    OnlyLacksR();
    ConsiderLacksR();
  }

  // One fixed line per lemma keeps each of these checks small.
  lemma RoleLacksR() ensures 'R' !in RoleStatement {}
  lemma FollowLacksR() ensures 'R' !in FollowLine {}
  lemma MaintainLacksR() ensures 'R' !in MaintainLine {}
  lemma EnsureLacksR() ensures 'R' !in EnsureLine {}
  lemma OnlyLacksR() ensures 'R' !in OnlyLine {}
  lemma ConsiderLacksR() ensures 'R' !in ConsiderLine {}
}

/** The redraft endpoint (`POST /api/review-email`): request validation, the choice of the
    technical-level sentence, and the construction of the system prompt and the single user
    turn that are handed to the language model. The model call itself is outside the model. */
module ReviewEmailRoute {
  import opened Wrappers
  import opened Text
  import opened Levels
  import opened ReviewEmailText

  /** The `client` object of the request. Only `name` and `technicalKnowledge` are read; a
      missing level compares false against both thresholds. */
  datatype Recipient = Recipient(name: string, technicalKnowledge: Option<int>)

  /** The four fields the route reads from the JSON body; `None` is an absent field. */
  datatype Request = Request(
    originalEmail: Option<string>,
    context: Option<string>,
    prompt: Option<string>,
    client: Option<Recipient>)

  /** A plain-text error response, or the system prompt and user turn sent to the model. */
  datatype Response =
    | Rejected(status: int, body: string)
    | Generate(system: string, userMessage: string)

  function BeginnerSentence(name: string): string {
    RecipientOpen + name + (RecipientHas + BeginnerTail)
  }

  function IntermediateSentence(name: string): string {
    RecipientOpen + name + (RecipientHas + IntermediateTail)
  }

  function AdvancedSentence(name: string): string {
    RecipientOpen + name + (RecipientHas + AdvancedTail)
  }

  /** `!field?.trim()`: the field is absent or holds only whitespace. */
  predicate Blank(field: Option<string>) {
    field.None? || IsBlank(field.value)
  }

  /** `level <= bound` in JavaScript, where a missing level compares false. */
  predicate AtMost(level: Option<int>, bound: int) {
    level.Some? && level.value <= bound
  }

  /** `technicalContext`: empty without a client, otherwise the sentence for its tier. */
  function TechnicalContext(client: Option<Recipient>): string {
    match client
    case None => ""
    case Some(c) =>
      if AtMost(c.technicalKnowledge, 2) then BeginnerSentence(c.name)
      else if AtMost(c.technicalKnowledge, 4) then IntermediateSentence(c.name)
      else AdvancedSentence(c.name)
  }

  /** `context || "General business correspondence"`. */
  function ContextText(context: Option<string>): string {
    if context.None? || context.value == "" then DefaultContext else context.value
  }

  /** The line between the context and the instructions: empty without a technical context. */
  function LevelLine(technicalContext: string): string {
    if technicalContext != "" then LevelMarker + technicalContext else ""
  }

  /** The five blocks of the system prompt, in order: role, context, level line,
      instructions, guidelines. */
  function PromptSections(context: Option<string>, technicalContext: string, prompt: string): seq<string> {
    [RoleStatement, "Context: " + ContextText(context), LevelLine(technicalContext),
     InstructionsMarker + prompt, Guidelines]
  }

  /** The system prompt template: the five blocks separated by blank lines. */
  function SystemPrompt(context: Option<string>, technicalContext: string, prompt: string): string {
    Join(PromptSections(context, technicalContext, prompt), "\n\n")
  }

  /** The single user turn: the email between two fence lines. */
  function UserMessage(originalEmail: string): string {
    UserPreamble + (Fence + "\n" + originalEmail + "\n" + Fence) + UserClosing
  }

  /** `POST`: the email is checked first, then the prompt; only a request passing both checks
      reaches prompt construction and the model call. */
  function Handle(req: Request): (r: Response)
    ensures r == Rejected(400, "No email content provided") <==> Blank(req.originalEmail)
    ensures r == Rejected(400, "No prompt provided")
            <==> !Blank(req.originalEmail) && Blank(req.prompt)
    ensures r.Generate? <==> !Blank(req.originalEmail) && !Blank(req.prompt)
  {
    if Blank(req.originalEmail) then Rejected(400, "No email content provided")
    else if Blank(req.prompt) then Rejected(400, "No prompt provided")
    else
      Generate(
        SystemPrompt(req.context, TechnicalContext(req.client), req.prompt.value),
        UserMessage(req.originalEmail.value))
  }

  /** Exactly one of the three sentences is chosen, by the tier of the level (a missing level
      falls through to advanced), and the chosen sentence names the recipient. */
  lemma TechnicalContextTier(c: Recipient)
    ensures TechnicalContext(Some(c)) == BeginnerSentence(c.name)
            <==> c.technicalKnowledge.Some? && TierOf(c.technicalKnowledge.value) == Beginner
    ensures TechnicalContext(Some(c)) == IntermediateSentence(c.name)
            <==> c.technicalKnowledge.Some? && TierOf(c.technicalKnowledge.value) == Intermediate
    ensures TechnicalContext(Some(c)) == AdvancedSentence(c.name)
            <==> c.technicalKnowledge.None? || TierOf(c.technicalKnowledge.value) == Advanced
    ensures IsInfix(c.name, TechnicalContext(Some(c)))
  {
    SentencesDiffer(c.name);
    SentencesNameRecipient(c.name);
  }

  /** The three sentences differ in the character that starts the tier word. */
  lemma SentencesDiffer(name: string)
    ensures BeginnerSentence(name) != IntermediateSentence(name)
    ensures BeginnerSentence(name) != AdvancedSentence(name)
    ensures IntermediateSentence(name) != AdvancedSentence(name)
  {
    var head := RecipientOpen + name;
    assert BeginnerTail[0] == 'b' && IntermediateTail[0] == 'i' && AdvancedTail[0] == 'a';
    IndexAfter(RecipientHas, BeginnerTail, 0);
    IndexAfter(RecipientHas, IntermediateTail, 0);
    IndexAfter(RecipientHas, AdvancedTail, 0);
    IndexAfter(head, RecipientHas + BeginnerTail, |RecipientHas|);
    IndexAfter(head, RecipientHas + IntermediateTail, |RecipientHas|);
    IndexAfter(head, RecipientHas + AdvancedTail, |RecipientHas|);
  }

  /** Each sentence names the recipient. */
  lemma SentencesNameRecipient(name: string)
    ensures IsInfix(name, BeginnerSentence(name))
    ensures IsInfix(name, IntermediateSentence(name))
    ensures IsInfix(name, AdvancedSentence(name))
  {
    OccursAfter(RecipientOpen, name, RecipientHas + BeginnerTail);
    OccursAfter(RecipientOpen, name, RecipientHas + IntermediateTail);
    OccursAfter(RecipientOpen, name, RecipientHas + AdvancedTail);
  }

  /** The system prompt starts with the role statement and carries the context (or its
      default) and the user's instructions verbatim. */
  lemma SystemPromptLayout(context: Option<string>, technicalContext: string, prompt: string)
    ensures StartsWith(SystemPrompt(context, technicalContext, prompt), RoleStatement)
    ensures IsInfix("Context: " + ContextText(context), SystemPrompt(context, technicalContext, prompt))
    ensures IsInfix(InstructionsMarker + prompt, SystemPrompt(context, technicalContext, prompt))
    ensures context.None? || context.value == "" ==> ContextText(context) == DefaultContext
    ensures context.Some? && context.value != "" ==> ContextText(context) == context.value
  {
    var sections := PromptSections(context, technicalContext, prompt);
    JoinStartsWithFirst(sections, "\n\n");
    JoinHoldsPart(sections, "\n\n", 1);
    JoinHoldsPart(sections, "\n\n", 3);
  }

  /** Without a client the level line is empty. Provided the user's own context and
      instructions do not spell out the marker, the marker appears in the system prompt
      exactly when a client was sent, and then it introduces the tier sentence. */
  lemma LevelLineIffClient(context: Option<string>, client: Option<Recipient>, prompt: string)
    requires !IsInfix(LevelMarker, ContextText(context))
    requires !IsInfix(LevelMarker, prompt)
    ensures client.None? <==> LevelLine(TechnicalContext(client)) == ""
    ensures IsInfix(LevelMarker, SystemPrompt(context, TechnicalContext(client), prompt))
            <==> client.Some?
    ensures client.Some? ==>
              IsInfix(LevelMarker + TechnicalContext(client),
                      SystemPrompt(context, TechnicalContext(client), prompt))
  {
    if client.None? {
      MarkerAbsent(context, prompt);
    } else {
      MarkerPresent(context, client.value, prompt);
    }
  }

  lemma MarkerAbsent(context: Option<string>, prompt: string)
    requires !IsInfix(LevelMarker, ContextText(context))
    requires !IsInfix(LevelMarker, prompt)
    ensures !IsInfix(LevelMarker, SystemPrompt(context, "", prompt))
  {
    var m := LevelMarker;
    FixedTextsLackR();
    NotInfixByFirstChar(m, RoleStatement);
    NotInfixByFirstChar(m, "Context: ");
    NotInfixConcat(m, "Context: ", ContextText(context));
    assert !OccursAt(m, "", 0);
    NotInfixByFirstChar(m, InstructionsMarker);
    NotInfixConcat(m, InstructionsMarker, prompt);
    NotInfixByFirstChar(m, Guidelines);
    JoinLacks(PromptSections(context, "", prompt), "\n\n", m);
  }

  lemma MarkerPresent(context: Option<string>, c: Recipient, prompt: string)
    ensures IsInfix(LevelMarker + TechnicalContext(Some(c)),
                    SystemPrompt(context, TechnicalContext(Some(c)), prompt))
    ensures IsInfix(LevelMarker, SystemPrompt(context, TechnicalContext(Some(c)), prompt))
  {
    var tc := TechnicalContext(Some(c));
    var s := SystemPrompt(context, tc, prompt);
    assert tc != "";
    JoinHoldsPart(PromptSections(context, tc, prompt), "\n\n", 2);
    var j :| OccursAt(LevelMarker + tc, s, j);
    OccursPrefix(LevelMarker, tc, s, j);
  }

  /** The user turn carries the original email verbatim between two fence lines. */
  lemma UserMessageFencesEmail(originalEmail: string)
    ensures StartsWith(UserMessage(originalEmail), UserPreamble)
    ensures IsInfix(Fence + "\n" + originalEmail + "\n" + Fence, UserMessage(originalEmail))
  {
    var body := Fence + "\n" + originalEmail + "\n" + Fence;
    OccursAfter(UserPreamble, body, UserClosing);
    assert UserMessage(originalEmail)[..|UserPreamble|] == UserPreamble;
  }
}
