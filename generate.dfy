/** The decision logic of the `POST /api/generate` handler of the KahaniBox AI
    server: request validation, the configuration check, the choice between
    continuation, news and story mode, the assembly of the instruction sent to
    the Gemini model, the mapping of upstream failures to client responses,
    the placeholder for an empty reply, and the markdown cleanup of the
    generated text.

    The HTTP call itself is a parameter `call(apiKey, fullPrompt)` of the
    handler; the clock reading that fills the news template is the parameter
    `today`. */
module Generate {
  import opened JsStrings

  /** The two fields of the JSON body the handler reads. */
  datatype Request = Request(prompt: Option<string>, history: Option<string>)

  /** The three kinds of instruction the handler can send. */
  datatype Mode = Continuation | News | Story

  /** A status for which `response.ok` is false: anything outside 200-299. */
  type FailStatus = s: int | !(200 <= s < 300) witness 404

  /** What the upstream call produced: a reply with status 2xx whose first
      candidate text may be missing; a reply with any other status and the
      text of its body; or an exception (network failure, unreadable body). */
  datatype UpstreamReply =
    | Ok(candidateText: Option<string>)
    | Failed(status: FailStatus, errorText: string)
    | Threw(message: string)

  /** The JSON body sent back to the client. */
  datatype Body = Error(error: string) | Generated(generatedText: string)

  datatype Response = Response(status: int, body: Body)

  const PromptRequired := "Prompt is required"
  const KeyMissing := "Server Error: API Key is missing"
  const ModelNotFound := "Model Not Found: Please check the model name in code."
  const LimitExceeded := "Limit Exceeded: Server is busy, try again in 1 minute."
  const AiErrorPrefix := "AI Error: "
  const CrashPrefix := "Internal Server Error: "
  const Placeholder := "Maafi chahenge, content generate nahi ho paya."

  /** Continuation mode sends at most this many trailing characters of the history. */
  const ContextLimit: nat := 1000

  // ---------------------------------------------------------------------
  // Mode classification

  /** The prompt asks for news: it is truthy and its lower-case form contains
      "news", "khabar" or "samachar". */
  predicate IsNews(prompt: Option<string>) {
    && Truthy(prompt)
    && var lower := ToLower(prompt.value);
       Includes(lower, "news") || Includes(lower, "khabar") || Includes(lower, "samachar")
  }

  function Classify(req: Request): Mode {
    if Truthy(req.history) then Continuation
    else if IsNews(req.prompt) then News
    else Story
  }

  /** A truthy history always selects continuation, whatever the prompt says;
      news needs a falsy history and a news keyword in the lower-cased prompt;
      every other request is a story request. */
  lemma ClassifyCases(req: Request)
    ensures Classify(req) == Continuation <==> Truthy(req.history)
    ensures Classify(req) == News <==>
      && !Truthy(req.history)
      && Truthy(req.prompt)
      && (|| Occurs(ToLower(req.prompt.value), "news")
          || Occurs(ToLower(req.prompt.value), "khabar")
          || Occurs(ToLower(req.prompt.value), "samachar"))
    ensures Classify(req) == Story <==> !Truthy(req.history) && !IsNews(req.prompt)
  {
    if Truthy(req.prompt) {
      var lower := ToLower(req.prompt.value);
      IncludesIsOccurs(lower, "news");
      IncludesIsOccurs(lower, "khabar");
      IncludesIsOccurs(lower, "samachar");
    }
  }

  // ---------------------------------------------------------------------
  // Prompt templates

  // The first line of each template names the role the model is asked to play.
  const ContinuationRole := "Role: Professional Writer."
  const NewsRole := "Role: Senior News Anchor (India)."
  const StoryRole := "Role: Best Hindi Storyteller."
  const TopicLabel := "Topic: "

  const ContinuationHead := ContinuationRole + "\nTask: Continue the story naturally.\nContext: \""
  const ContinuationTail := "\"\nInstruction: Write next 300-400 words in Hindi. Maintain flow."

  const NewsHead := NewsRole + "\nTask: Give Top Verified News Headlines.\nDate: "
  const NewsMiddle := " (News MUST be fresh).\n"
  const NewsTail := "\n\nRules:\n1. Source: Verified channels only.\n2. Format: \"Headline\" followed by details.\n3. Language: Hindi.\n4. Formatting: Plain Text (No ** or ##)."

  const StoryHead := StoryRole + "\n"
  const StoryTail := "\nTask: Write a viral-quality story/script (400-500 words).\nLanguage: Hindi.\nFormatting: Plain Text only (No markdown like **)."

  function ContinuationPrompt(context: string): string {
    ContinuationHead + context + ContinuationTail
  }

  function NewsPrompt(today: string, topic: string): string {
    (NewsHead + today + NewsMiddle) + (TopicLabel + topic) + NewsTail
  }

  function StoryPrompt(topic: string): string {
    StoryHead + (TopicLabel + topic) + StoryTail
  }

  /** The context continuation mode embeds: the last ContextLimit characters
      of the history. */
  function ContextOf(history: string): (r: string)
    ensures |r| == if |history| <= ContextLimit then |history| else ContextLimit
    ensures r == history[|history| - |r|..]
  {
    SliceFromEnd(history, ContextLimit)
  }

  /** The instruction sent upstream. `today` is the formatted current date. */
  function FullPrompt(req: Request, today: string): string {
    match Classify(req)
    case Continuation => ContinuationPrompt(ContextOf(req.history.value))
    case News => NewsPrompt(today, Interpolate(req.prompt))
    case Story => StoryPrompt(Interpolate(req.prompt))
  }

  /** Once validation has passed, news and story mode always have a prompt
      string, so the "undefined" an absent value would print never reaches
      the instruction. */
  lemma InterpolatedTopicIsPrompt(req: Request)
    requires Truthy(req.prompt) || Truthy(req.history)
    requires Classify(req) != Continuation
    ensures req.prompt.Some? && Interpolate(req.prompt) == req.prompt.value
  {
  }

  // Reading an assembled instruction back.

  predicate StartsWith(s: string, prefix: string) {
    |prefix| <= |s| && s[..|prefix|] == prefix
  }

  /** The mode an instruction was built for, read from its first line. */
  function ModeOf(fullPrompt: string): Mode {
    if StartsWith(fullPrompt, ContinuationRole) then Continuation
    else if StartsWith(fullPrompt, NewsRole) then News
    else Story
  }

  /** The text between the fixed head and tail of a continuation instruction. */
  function ContextIn(fullPrompt: string): string
    requires |fullPrompt| >= |ContinuationHead| + |ContinuationTail|
  {
    fullPrompt[|ContinuationHead|..|fullPrompt| - |ContinuationTail|]
  }

  /** The topic of a news instruction dated `today`. */
  function NewsTopicIn(fullPrompt: string, today: string): string
    requires |fullPrompt| >= |NewsHead| + |today| + |NewsMiddle| + |TopicLabel| + |NewsTail|
  {
    fullPrompt[|NewsHead| + |today| + |NewsMiddle| + |TopicLabel|..|fullPrompt| - |NewsTail|]
  }

  /** The topic of a story instruction. */
  function StoryTopicIn(fullPrompt: string): string
    requires |fullPrompt| >= |StoryHead| + |TopicLabel| + |StoryTail|
  {
    fullPrompt[|StoryHead| + |TopicLabel|..|fullPrompt| - |StoryTail|]
  }

  lemma StartsWithRole(role: string, rest: string)
    ensures StartsWith(role + rest, role)
  {
    assert (role + rest)[..|role|] == role;
  }

  /** The first line of the instruction tells which mode was chosen: the
      three templates can always be told apart. */
  lemma ModeOfFullPrompt(req: Request, today: string)
    ensures ModeOf(FullPrompt(req, today)) == Classify(req)
  {
    var full := FullPrompt(req, today);
    match Classify(req)
    case Continuation =>
      assert full == ContinuationRole + full[|ContinuationRole|..];
      StartsWithRole(ContinuationRole, full[|ContinuationRole|..]);
    case News =>
      assert full == NewsRole + full[|NewsRole|..];
      assert full[6] == NewsRole[6] == 'S' != ContinuationRole[6];
      StartsWithRole(NewsRole, full[|NewsRole|..]);
    case Story =>
      assert full == StoryRole + full[|StoryRole|..];
      assert full[6] == StoryRole[6] == 'B';
      assert full[6] != ContinuationRole[6] && full[6] != NewsRole[6];
  }

  /** In continuation mode the instruction carries exactly the context, and
      the context is the trailing min(|history|, 1000) characters of the
      history: all of it when it is at most 1000 characters long. */
  lemma ContinuationCarriesHistoryTail(req: Request, today: string)
    requires Truthy(req.history)
    ensures var full := FullPrompt(req, today);
      && |full| >= |ContinuationHead| + |ContinuationTail|
      && var context := ContextIn(full);
         var h := req.history.value;
         && context == h[|h| - |context|..]
         && |context| == (if |h| <= ContextLimit then |h| else ContextLimit)
         && (|h| <= ContextLimit ==> context == h)
  {
    OccursInMiddle(ContinuationHead, ContextOf(req.history.value), ContinuationTail);
  }

  lemma NewsPromptTopic(today: string, topic: string)
    ensures OccursAt(NewsPrompt(today, topic), TopicLabel + topic, |NewsHead + today + NewsMiddle|)
    ensures |NewsPrompt(today, topic)| >= |NewsHead| + |today| + |NewsMiddle| + |TopicLabel| + |NewsTail|
    ensures NewsTopicIn(NewsPrompt(today, topic), today) == topic
  {
    LabelledInMiddle(NewsHead + today + NewsMiddle, TopicLabel, topic, NewsTail);
  }

  lemma StoryPromptTopic(topic: string)
    ensures OccursAt(StoryPrompt(topic), TopicLabel + topic, |StoryHead|)
    ensures |StoryPrompt(topic)| >= |StoryHead| + |TopicLabel| + |StoryTail|
    ensures StoryTopicIn(StoryPrompt(topic)) == topic
  {
    LabelledInMiddle(StoryHead, TopicLabel, topic, StoryTail);
  }

  /** In news and story mode the user's prompt appears verbatim right after
      "Topic: ", and reading the topic back gives the prompt. */
  lemma TopicIsVerbatimPrompt(req: Request, today: string)
    requires !Truthy(req.history) && Truthy(req.prompt)
    ensures Occurs(FullPrompt(req, today), TopicLabel + req.prompt.value)
    ensures Classify(req) == News ==>
      && |FullPrompt(req, today)| >= |NewsHead| + |today| + |NewsMiddle| + |TopicLabel| + |NewsTail|
      && NewsTopicIn(FullPrompt(req, today), today) == req.prompt.value
    ensures Classify(req) == Story ==>
      && |FullPrompt(req, today)| >= |StoryHead| + |TopicLabel| + |StoryTail|
      && StoryTopicIn(FullPrompt(req, today)) == req.prompt.value
  {
    if Classify(req) == News {
      NewsPromptTopic(today, req.prompt.value);
    } else {
      StoryPromptTopic(req.prompt.value);
    }
  }

  // ---------------------------------------------------------------------
  // Upstream result handling

  /** The client response for an upstream reply whose status is not 2xx. */
  function MapFailure(status: FailStatus, errorText: string): (r: Response)
    ensures r.status == status && r.body.Error?
    ensures status == 404 ==> r.body.error == ModelNotFound
    ensures status == 429 ==> r.body.error == LimitExceeded
    ensures status != 404 && status != 429 ==> r.body.error == AiErrorPrefix + errorText
  {
    if status == 404 then Response(404, Error(ModelNotFound))
    else if status == 429 then Response(429, Error(LimitExceeded))
    else Response(status, Error(AiErrorPrefix + errorText))
  }

  /** The first candidate's text, or the placeholder when it is missing or empty. */
  function PickText(candidateText: Option<string>): (r: string)
    ensures r != ""
    ensures Truthy(candidateText) ==> r == candidateText.value
    ensures !Truthy(candidateText) ==> r == Placeholder
  {
    if Truthy(candidateText) then candidateText.value else Placeholder
  }

  const Markers: set<char> := {'*', '#'}

  /** The three global replacements, in order: "**", then "##", then "*". */
  function StripMarkers(raw: string): string {
    RemoveAll(RemoveAll(RemoveAll(raw, "**"), "##"), "*")
  }

  /** The formatting cleanup applied to the generated text. */
  function Cleanup(raw: string): (r: string)
    ensures Trimmed(r)
    ensures |r| <= |raw|
  {
    Trim(StripMarkers(raw))
  }

  /** The cleaned text contains no asterisk. */
  lemma CleanupHasNoAsterisk(raw: string)
    ensures forall i :: 0 <= i < |Cleanup(raw)| ==> Cleanup(raw)[i] != '*'
  {
    var m := StripMarkers(raw);
    RemoveAllChar(RemoveAll(RemoveAll(raw, "**"), "##"), '*');
    var i := |m| - |TrimStart(m)|;
    assert Cleanup(raw) == m[i..i + |Cleanup(raw)|];
  }

  /** The replacements delete asterisks and hashes only: every other
      character of the raw text survives, in order. The cleaned text is what
      they leave, without white space at either end. */
  lemma StripMarkersDeletesOnlyMarkers(raw: string)
    ensures Without(StripMarkers(raw), Markers) == Without(raw, Markers)
    ensures exists i :: PaddedAt(StripMarkers(raw), Cleanup(raw), i)
  {
    var a := RemoveAll(raw, "**");
    var b := RemoveAll(a, "##");
    RemoveAllKeepsOthers(raw, "**", Markers);
    RemoveAllKeepsOthers(a, "##", Markers);
    RemoveAllKeepsOthers(b, "*", Markers);
    var m := StripMarkers(raw);
    assert PaddedAt(m, Cleanup(raw), |m| - |TrimStart(m)|);
  }

  /** Text without asterisks and hashes is only trimmed. */
  lemma CleanupOfPlainText(raw: string)
    requires forall i :: 0 <= i < |raw| ==> raw[i] !in Markers
    ensures Cleanup(raw) == Trim(raw)
  {
    NoMemberNoMatch(raw, "**", Markers);
    RemoveAllNoMatch(raw, "**");
    NoMemberNoMatch(raw, "##", Markers);
    RemoveAllNoMatch(raw, "##");
    NoMemberNoMatch(raw, "*", Markers);
    RemoveAllNoMatch(raw, "*");
  }

  /** Cleaning a cleaned text again changes it exactly when it still contains
      "##". Hashes can survive: "#*#" cleans to "##", which cleans to "". */
  lemma CleanupIdempotentUnlessHashPair(raw: string)
    ensures Cleanup(Cleanup(raw)) == Cleanup(raw) <==> !Occurs(Cleanup(raw), "##")
  {
    var t := Cleanup(raw);
    CleanupHasNoAsterisk(raw);
    NoMemberNoMatch(t, "**", {'*'});
    RemoveAllNoMatch(t, "**");
    var u := RemoveAll(t, "##");
    if Occurs(t, "##") {
      RemoveAllShrinks(t, "##");
      assert |Cleanup(t)| <= |RemoveAll(u, "*")| <= |u| < |t|;
    } else {
      RemoveAllNoMatch(t, "##");
      NoMemberNoMatch(t, "*", {'*'});
      RemoveAllNoMatch(t, "*");
      TrimOfTrimmed(t);
    }
  }

  lemma StripHashStarHash()
    ensures StripMarkers("#*#") == "##"
  {
    assert RemoveAll("#", "**") == "#";
    assert "*#"[..2][1] != "**"[1];
    assert RemoveAll("*#", "**") == "*#";
    assert RemoveAll("#*#", "**") == "#*#";
    assert RemoveAll("#", "##") == "#";
    assert RemoveAll("*#", "##") == "*#";
    assert RemoveAll("#*#", "##") == "#*#";
    assert RemoveAll("", "*") == "";
    assert RemoveAll("#", "*") == "#";
    assert RemoveAll("*#", "*") == "#";
    assert RemoveAll("#*#", "*") == "##";
  }

  lemma StripHashPair()
    ensures StripMarkers("##") == ""
  {
    assert RemoveAll("#", "**") == "#";
    assert RemoveAll("##", "**") == "##";
    assert RemoveAll("", "##") == "";
    assert RemoveAll("##", "##") == "";
    assert RemoveAll("", "*") == "";
  }

  /** A hash pair split by an asterisk survives the cleanup, so the cleaned
      text is not always free of "##" and cleaning twice can differ from
      cleaning once. */
  lemma CleanupCanLeaveHashPair()
    ensures Cleanup("#*#") == "##"
    ensures Cleanup(Cleanup("#*#")) == ""
  {
    StripHashStarHash();
    TrimOfTrimmed("##");
    StripHashPair();
    TrimOfTrimmed("");
  }

  /** The result of a 2xx reply, after the placeholder and the cleanup. */
  function GeneratedText(candidateText: Option<string>): string {
    Cleanup(PickText(candidateText))
  }

  /** The placeholder is applied before the cleanup, so a reply made only of
      markdown markers yields an empty generated text. */
  lemma GeneratedTextCanBeEmpty()
    ensures GeneratedText(Some("**")) == ""
  {
    assert PickText(Some("**")) == "**";
    assert RemoveAll("**", "**") == "" by {
      assert "**"[..2] == "**";
      assert "**"[2..] == "";
    }
    assert RemoveAll("", "##") == "";
    assert RemoveAll("", "*") == "";
  }

  /** The client response once the upstream call has returned. */
  function Finish(reply: UpstreamReply): (r: Response)
    ensures r.body.Generated? <==> reply.Ok?
    ensures 200 <= r.status < 300 <==> reply.Ok?
    ensures reply.Ok? ==> r == Response(200, Generated(GeneratedText(reply.candidateText)))
    ensures reply.Failed? ==> r == MapFailure(reply.status, reply.errorText)
    ensures reply.Threw? ==> r == Response(500, Error(CrashPrefix + reply.message))
  {
    match reply
    case Ok(candidateText) => Response(200, Generated(GeneratedText(candidateText)))
    case Failed(status, errorText) => MapFailure(status, errorText)
    case Threw(message) => Response(500, Error(CrashPrefix + message))
  }

  // ---------------------------------------------------------------------
  // The handler

  /** POST /api/generate. `apiKey` is the configured credential, `today` the
      formatted current date and `call(key, fullPrompt)` the one request the
      handler makes to the model. */
  function Handle(req: Request, apiKey: Option<string>, today: string,
                  call: (string, string) -> UpstreamReply): (r: Response)
    ensures !Truthy(req.prompt) && !Truthy(req.history) ==>
      r == Response(400, Error(PromptRequired))
    ensures (Truthy(req.prompt) || Truthy(req.history)) && !Truthy(apiKey) ==>
      r == Response(500, Error(KeyMissing))
    ensures (Truthy(req.prompt) || Truthy(req.history)) && Truthy(apiKey) ==>
      r == Finish(call(apiKey.value, FullPrompt(req, today)))
  {
    if !Truthy(req.prompt) && !Truthy(req.history) then
      Response(400, Error(PromptRequired))
    else if !Truthy(apiKey) then
      Response(500, Error(KeyMissing))
    else
      Finish(call(apiKey.value, FullPrompt(req, today)))
  }

  /** A rejected request gets the same response whatever the model would have
      answered: the upstream call is never made. */
  lemma RejectionMakesNoCall(req: Request, apiKey: Option<string>, today: string,
                             call1: (string, string) -> UpstreamReply,
                             call2: (string, string) -> UpstreamReply)
    requires !(Truthy(req.prompt) || Truthy(req.history)) || !Truthy(apiKey)
    ensures Handle(req, apiKey, today, call1) == Handle(req, apiKey, today, call2)
    ensures Handle(req, apiKey, today, call1).status in {400, 500}
  {
  }

  /** A successful request is answered with 200 and the cleaned candidate
      text, or the cleaned placeholder when the candidate text is missing or
      empty; that text is free of asterisks and of surrounding white space. */
  lemma SuccessIsCleanText(req: Request, apiKey: Option<string>, today: string,
                           call: (string, string) -> UpstreamReply)
    requires Truthy(req.prompt) || Truthy(req.history)
    requires Truthy(apiKey)
    requires call(apiKey.value, FullPrompt(req, today)).Ok?
    ensures var r := Handle(req, apiKey, today, call);
      var c := call(apiKey.value, FullPrompt(req, today)).candidateText;
      && r.status == 200 && r.body.Generated?
      && r.body.generatedText == Cleanup(if Truthy(c) then c.value else Placeholder)
      && Trimmed(r.body.generatedText)
      && forall i :: 0 <= i < |r.body.generatedText| ==> r.body.generatedText[i] != '*'
  {
    CleanupHasNoAsterisk(PickText(call(apiKey.value, FullPrompt(req, today)).candidateText));
  }
}
