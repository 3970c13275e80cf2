/**
 * The display tools of `DefaultAgent` (src/agent.ts): `getImages` shows a
 * diagram of a cell part on the student's screen and `closeImage` hides it,
 * both over the single field `lastShownTopic` and the room's data channel.
 * Also the user and agent names the constructor renders from the secrets.
 *
 * Each tool is specified by a step function on the display state (the
 * recorded topic and the messages published so far); the class's methods
 * are proved to perform exactly that step.
 */
module Agent {
  import opened Strings
  import opened Json
  import opened Template
  import opened Templater

  // ---------------------------------------------------------------------------
  // Messages and replies
  // ---------------------------------------------------------------------------

  /** A data message published to the room: `{type: 'show_image', url, title}` or `{type: 'close_image'}`. */
  datatype Msg = ShowImage(url: string, title: string) | CloseImage

  /** What a tool's `execute` settles with: a string, `true`, or a thrown `TypeError`. */
  datatype Reply = Returned(text: string) | ReturnedTrue | ThrewTypeError

  /** The diagrams the agent knows, by lower-case topic. */
  const ImageMap: map<string, string> := map[
    "mitochondria" := "https://upload.wikimedia.org/wikipedia/commons/7/75/Diagram_of_a_human_mitochondrion.png",
    "nucleus" := "https://upload.wikimedia.org/wikipedia/commons/thumb/3/38/Diagram_human_cell_nucleus.svg/1252px-Diagram_human_cell_nucleus.svg.png",
    "cell" := "https://templates.mindthegraph.com/animal-cell-structure/animal-cell-structure-graphical-abstract-template-preview-1.png"
  ]

  /** `imageMap[topic] || imageMap['cell']`: the topic's diagram, or the cell diagram for an unknown topic. */
  function ImageUrl(topic: string): (url: string)
    ensures url in ImageMap.Values
    ensures topic in ImageMap ==> url == ImageMap[topic]
    ensures topic !in ImageMap ==> url == ImageMap["cell"]
  {
    if topic in ImageMap && ImageMap[topic] != "" then ImageMap[topic] else ImageMap["cell"]
  }

  function AlreadyVisible(topic: string): string {
    "The diagram of the " + topic + " is already visible."
  }

  function Title(topic: string): string {
    "Diagram: " + topic
  }

  const ClosedText := "I've closed the diagram so we can focus on our notes."

  // ---------------------------------------------------------------------------
  // The tools as steps on the display state
  // ---------------------------------------------------------------------------

  /** `lastShownTopic`, and every message published so far, oldest first. */
  datatype Display = Display(lastShownTopic: Option<string>, outbox: seq<Msg>)

  /** The display after a tool call, and what the call settled with. */
  datatype Outcome = Outcome(after: Display, reply: Reply)

  /** `getImages({topic})`, with or without a room to publish to. */
  function GetImagesStep(d: Display, hasRoom: bool, topic: string): Outcome {
    var normalized := Lower(topic);
    if d.lastShownTopic == Some(normalized) then
      Outcome(d, Returned(AlreadyVisible(topic)))
    else
      var sent := if hasRoom then [ShowImage(ImageUrl(normalized), Title(topic))] else [];
      Outcome(Display(Some(normalized), d.outbox + sent), ReturnedTrue)
  }

  /**
   * `closeImage()`. With a room, the guarded publish and the unguarded one both
   * send `close_image`. Without one, the unguarded `this.room.localParticipant`
   * throws before anything is sent.
   */
  function CloseImageStep(d: Display, hasRoom: bool): Outcome {
    if hasRoom then Outcome(Display(d.lastShownTopic, d.outbox + [CloseImage, CloseImage]), Returned(ClosedText))
    else Outcome(d, ThrewTypeError)
  }

  /** A call the model makes to one of the two display tools. */
  datatype Call = GetImagesCall(topic: string) | CloseImageCall

  function Step(d: Display, hasRoom: bool, c: Call): Outcome {
    match c
    case GetImagesCall(topic) => GetImagesStep(d, hasRoom, topic)
    case CloseImageCall => CloseImageStep(d, hasRoom)
  }

  /** The display after a sequence of tool calls, in order. */
  function Run(d: Display, hasRoom: bool, calls: seq<Call>): Display
    decreases |calls|
  {
    if calls == [] then d else Run(Step(d, hasRoom, calls[0]).after, hasRoom, calls[1..])
  }

  // ---------------------------------------------------------------------------
  // Properties of the steps
  // ---------------------------------------------------------------------------

  /** Asking again for the topic on record, in any letter case, changes nothing and says it is already visible. */
  lemma GetImagesRepeatIsNoOp(d: Display, hasRoom: bool, topic: string)
    requires d.lastShownTopic.Some? && d.lastShownTopic.value == Lower(topic)
    ensures GetImagesStep(d, hasRoom, topic) == Outcome(d, Returned(AlreadyVisible(topic)))
  {
  }

  /**
   * A new topic is recorded in lower case, even an unknown one, and with a room
   * exactly one `show_image` is published, carrying the topic's diagram and
   * its original-case title.
   */
  lemma GetImagesNewTopic(d: Display, hasRoom: bool, topic: string)
    requires d.lastShownTopic != Some(Lower(topic))
    ensures var o := GetImagesStep(d, hasRoom, topic);
      && o.reply == ReturnedTrue
      && o.after.lastShownTopic == Some(Lower(topic))
      && (hasRoom ==> o.after.outbox == d.outbox + [ShowImage(ImageUrl(Lower(topic)), "Diagram: " + topic)])
      && (!hasRoom ==> o.after.outbox == d.outbox)
  {
  }

  /** Two calls whose topics agree up to letter case: the second one is a no-op. */
  lemma GetImagesTwice(d: Display, hasRoom: bool, t1: string, t2: string)
    requires Lower(t1) == Lower(t2)
    ensures var o1 := GetImagesStep(d, hasRoom, t1);
      GetImagesStep(o1.after, hasRoom, t2) == Outcome(o1.after, Returned(AlreadyVisible(t2)))
  {
  }

  /** `getImages` only ever appends `show_image` messages, at most one, with a known diagram: it never closes first. */
  lemma GetImagesShowOnly(d: Display, hasRoom: bool, topic: string)
    ensures var o := GetImagesStep(d, hasRoom, topic);
      && |d.outbox| <= |o.after.outbox| <= |d.outbox| + 1
      && o.after.outbox[..|d.outbox|] == d.outbox
      && forall i :: |d.outbox| <= i < |o.after.outbox| ==>
           o.after.outbox[i].ShowImage? && o.after.outbox[i].url in ImageMap.Values
  {
  }

  /**
   * Switching from one topic to another records the second and, with a room,
   * publishes the two diagrams one after the other with no `close_image`
   * between them: the display is trusted to replace the first image.
   */
  lemma GetImagesSwitch(d: Display, t1: string, t2: string)
    requires d.lastShownTopic != Some(Lower(t1)) && Lower(t1) != Lower(t2)
    ensures var o2 := GetImagesStep(GetImagesStep(d, true, t1).after, true, t2);
      && o2.after.lastShownTopic == Some(Lower(t2))
      && o2.after.outbox == d.outbox + [ShowImage(ImageUrl(Lower(t1)), Title(t1)), ShowImage(ImageUrl(Lower(t2)), Title(t2))]
  {
    var o1 := GetImagesStep(d, true, t1);
    assert o1.after.outbox == d.outbox + [ShowImage(ImageUrl(Lower(t1)), Title(t1))];
  }

  /** `closeImage` keeps `lastShownTopic`, so asking for the same topic right after a close is a repeat. */
  lemma CloseThenSameTopicIsRepeat(d: Display, hasRoom: bool, topic: string)
    requires d.lastShownTopic == Some(Lower(topic))
    ensures CloseImageStep(d, hasRoom).after.lastShownTopic == d.lastShownTopic
    ensures var c := CloseImageStep(d, hasRoom).after;
      GetImagesStep(c, hasRoom, topic) == Outcome(c, Returned(AlreadyVisible(topic)))
  {
  }

  /** With a room, `closeImage` publishes `close_image` twice and always gives the same answer. */
  lemma CloseImageSendsTwice(d: Display)
    ensures CloseImageStep(d, true).after.outbox == d.outbox + [CloseImage, CloseImage]
    ensures CloseImageStep(d, true).reply == Returned(ClosedText)
  {
  }

  /** Without a room, `closeImage` throws and publishes nothing. */
  lemma CloseImageWithoutRoomThrows(d: Display)
    ensures CloseImageStep(d, false) == Outcome(d, ThrewTypeError)
  {
  }

  // ---------------------------------------------------------------------------
  // What the recorded topic says about the screen
  // ---------------------------------------------------------------------------

  /** The URL of the last `show_image` message published, if any. */
  function LastShownUrl(outbox: seq<Msg>): Option<string>
    decreases |outbox|
  {
    if outbox == [] then None
    else if outbox[|outbox| - 1].ShowImage? then Some(outbox[|outbox| - 1].url)
    else LastShownUrl(outbox[..|outbox| - 1])
  }

  lemma LastShownUrlAfterShow(outbox: seq<Msg>, m: Msg)
    requires m.ShowImage?
    ensures LastShownUrl(outbox + [m]) == Some(m.url)
  {
  }

  lemma LastShownUrlAfterCloses(outbox: seq<Msg>)
    ensures LastShownUrl(outbox + [CloseImage, CloseImage]) == LastShownUrl(outbox)
  {
    var o := outbox + [CloseImage, CloseImage];
    assert o[..|o| - 1] == outbox + [CloseImage];
    assert (outbox + [CloseImage])[..|outbox|] == outbox;
  }

  /**
   * The recorded topic is lower case. With a room, no topic is recorded exactly
   * when no diagram was ever published, and a recorded topic is the one whose
   * diagram was published last. Without a room nothing is ever published.
   */
  ghost predicate Consistent(d: Display, hasRoom: bool) {
    && (d.lastShownTopic.Some? ==> IsLower(d.lastShownTopic.value))
    && (hasRoom ==> (d.lastShownTopic.None? <==> LastShownUrl(d.outbox).None?))
    && (hasRoom && d.lastShownTopic.Some? ==> LastShownUrl(d.outbox) == Some(ImageUrl(d.lastShownTopic.value)))
    && (!hasRoom ==> d.outbox == [])
  }

  lemma StepKeepsConsistent(d: Display, hasRoom: bool, c: Call)
    requires Consistent(d, hasRoom)
    ensures Consistent(Step(d, hasRoom, c).after, hasRoom)
  {
    match c
    case GetImagesCall(topic) =>
      LowerIsLower(topic);
      if hasRoom && d.lastShownTopic != Some(Lower(topic)) {
        LastShownUrlAfterShow(d.outbox, ShowImage(ImageUrl(Lower(topic)), Title(topic)));
      }
      if !hasRoom {
        assert d.outbox + [] == d.outbox;
      }
    case CloseImageCall =>
      if hasRoom {
        LastShownUrlAfterCloses(d.outbox);
      }
  }

  /** Any sequence of tool calls keeps the display consistent. */
  lemma {:induction false} RunKeepsConsistent(d: Display, hasRoom: bool, calls: seq<Call>)
    requires Consistent(d, hasRoom)
    ensures Consistent(Run(d, hasRoom, calls), hasRoom)
    decreases |calls|
  {
    if calls != [] {
      StepKeepsConsistent(d, hasRoom, calls[0]);
      RunKeepsConsistent(Step(d, hasRoom, calls[0]).after, hasRoom, calls[1..]);
    }
  }

  /** The display of a freshly constructed agent. */
  const Initial := Display(None, [])

  lemma InitialIsConsistent(hasRoom: bool)
    ensures Consistent(Initial, hasRoom)
  {
  }

  // ---------------------------------------------------------------------------
  // Names
  // ---------------------------------------------------------------------------

  /** `rendered || fallback`: an empty string is falsy. */
  function OrDefault(rendered: string, fallback: string): (r: string)
    ensures rendered != "" ==> r == rendered
    ensures rendered == "" ==> r == fallback
  {
    if rendered == "" then fallback else rendered
  }

  /** The bindings of the headers templater: the metadata namespace with `secrets` spread over it. */
  function HeaderBindings(metadata: Parse, env: map<string, string>): map<string, Value> {
    Bindings(metadata, Some(map["secrets" := env]))
  }

  /** `headersTemplater.render('{{secrets.<name>}}') || fallback` */
  function SecretOrDefault(metadata: Parse, env: map<string, string>, name: string, fallback: string): string {
    OrDefault(RenderText(HeaderBindings(metadata, env), Placeholder(DottedKey("secrets", name))), fallback)
  }

  /** The templates the constructor renders: `{{secrets.USER_NAME}}` and `{{secrets.AGENT_NAME}}`. */
  const UserNameTemplate := Placeholder(DottedKey("secrets", "USER_NAME"))
  const AgentNameTemplate := Placeholder(DottedKey("secrets", "AGENT_NAME"))

  lemma NameTemplatesText()
    ensures UserNameTemplate == "{{secrets.USER_NAME}}"
    ensures AgentNameTemplate == "{{secrets.AGENT_NAME}}"
  {
  }

  function UserName(metadata: Parse, env: map<string, string>): string {
    SecretOrDefault(metadata, env, "USER_NAME", "Student")
  }

  function AgentName(metadata: Parse, env: map<string, string>): string {
    SecretOrDefault(metadata, env, "AGENT_NAME", "StudyBuddy")
  }

  /** The secrets namespace is an object over the environment. */
  lemma HeaderSecrets(metadata: Parse, env: map<string, string>)
    ensures var b := HeaderBindings(metadata, env);
      "secrets" in b && b["secrets"] == Namespace(env)
  {
  }

  /**
   * A set environment variable is the name itself, and the fallback applies
   * only when it is set to the empty string. An unset one is NOT replaced by
   * the fallback: the placeholder is kept verbatim and is not empty.
   */
  lemma SecretName(metadata: Parse, env: map<string, string>, name: string, fallback: string)
    requires PlainName(name)
    ensures name in env && env[name] != "" ==> SecretOrDefault(metadata, env, name, fallback) == env[name]
    ensures name in env && env[name] == "" ==> SecretOrDefault(metadata, env, name, fallback) == fallback
    ensures name !in env ==> SecretOrDefault(metadata, env, name, fallback) == Placeholder(DottedKey("secrets", name))
  {
    var b := HeaderBindings(metadata, env);
    HeaderSecrets(metadata, env);
    assert PlainName("secrets");
    if name in env {
      DottedKeyRenders(b, "secrets", name, Str(env[name]));
    } else {
      DottedKeyMissing(b, "secrets", name);
    }
  }

  /** An unset `USER_NAME` leaves the user's name as the literal placeholder, not "Student". */
  lemma UnsetUserNameIsPlaceholder(metadata: Parse, env: map<string, string>)
    requires "USER_NAME" !in env
    ensures UserName(metadata, env) == UserNameTemplate
  {
    assert PlainName("USER_NAME");
    SecretName(metadata, env, "USER_NAME", "Student");
  }

  /** `USER_NAME` set to the empty string gives "Student"; a non-empty value is used as it is. */
  lemma SetUserName(metadata: Parse, env: map<string, string>)
    requires "USER_NAME" in env
    ensures env["USER_NAME"] == "" ==> UserName(metadata, env) == "Student"
    ensures env["USER_NAME"] != "" ==> UserName(metadata, env) == env["USER_NAME"]
  {
    assert PlainName("USER_NAME");
    SecretName(metadata, env, "USER_NAME", "Student");
  }

  /** The same for `AGENT_NAME` and "StudyBuddy". */
  lemma AgentNameFallback(metadata: Parse, env: map<string, string>)
    ensures "AGENT_NAME" !in env ==> AgentName(metadata, env) == AgentNameTemplate
    ensures "AGENT_NAME" in env && env["AGENT_NAME"] == "" ==> AgentName(metadata, env) == "StudyBuddy"
    ensures "AGENT_NAME" in env && env["AGENT_NAME"] != "" ==> AgentName(metadata, env) == env["AGENT_NAME"]
  {
    assert PlainName("AGENT_NAME");
    SecretName(metadata, env, "AGENT_NAME", "StudyBuddy");
  }

  // ---------------------------------------------------------------------------
  // The agent
  // ---------------------------------------------------------------------------

  class DefaultAgent {
    /** Whether `this.room` is truthy. */
    const hasRoom: bool
    const userName: string
    const agentName: string
    var lastShownTopic: Option<string>
    /** The data messages published to the room, oldest first. */
    var outbox: seq<Msg>

    ghost function State(): Display
      reads this
    {
      Display(lastShownTopic, outbox)
    }

    ghost predicate Valid()
      reads this
    {
      Consistent(State(), hasRoom)
    }

    /** The parts of the constructor this model keeps: the two names and the initial display state. */
    constructor(metadata: Parse, env: map<string, string>, hasRoom: bool)
      ensures this.hasRoom == hasRoom
      ensures userName == UserName(metadata, env)
      ensures agentName == AgentName(metadata, env)
      ensures State() == Initial
      ensures Valid()
    {
      var headers := new VariableTemplater(metadata, Some(map["secrets" := env]));
      var user := headers.Render(UserNameTemplate);
      var agent := headers.Render(AgentNameTemplate);
      this.hasRoom := hasRoom;
      userName := OrDefault(user, "Student");
      agentName := OrDefault(agent, "StudyBuddy");
      lastShownTopic := None;
      outbox := [];
    }

    /** The `getImages` tool's `execute`. */
    method GetImages(topic: string) returns (reply: Reply)
      requires Valid()
      modifies this
      ensures Valid()
      ensures Outcome(State(), reply) == GetImagesStep(old(State()), hasRoom, topic)
    {
      ghost var before := State();
      var normalizedTopic := Lower(topic);
      if lastShownTopic == Some(normalizedTopic) {
        return Returned(AlreadyVisible(topic));
      }
      lastShownTopic := Some(normalizedTopic);
      var imageUrl := ImageUrl(normalizedTopic);
      if hasRoom {
        outbox := outbox + [ShowImage(imageUrl, Title(topic))];
      } else {
        assert outbox + [] == outbox;
      }
      reply := ReturnedTrue;
      StepKeepsConsistent(before, hasRoom, GetImagesCall(topic));
    }

    /** The `closeImage` tool's `execute`. */
    method CloseImage() returns (reply: Reply)
      requires Valid()
      modifies this
      ensures Valid()
      ensures Outcome(State(), reply) == CloseImageStep(old(State()), hasRoom)
    {
      ghost var before := State();
      if hasRoom {
        outbox := outbox + [Msg.CloseImage];
      }
      if !hasRoom {
        return ThrewTypeError;
      }
      outbox := outbox + [Msg.CloseImage];
      reply := Returned(ClosedText);
      assert outbox == before.outbox + [Msg.CloseImage, Msg.CloseImage];
      StepKeepsConsistent(before, hasRoom, CloseImageCall);
    }
  }
}
