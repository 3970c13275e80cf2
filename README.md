# Study-buddy agent: templater and display tools

This project models the deterministic core of the study-buddy voice agent in
`src/agent.ts`:

- **`VariableTemplater`**, a handlebars-like substituter. It has fixed bindings:
  - a `metadata` namespace parsed from the job metadata;
  - extra namespaces such as `secrets`, spread over it.

  `render(template)` works in two steps:
  - It finds every match of `/{{([^}]+)}}/g`.
  - For each match it trims the key, splits it on `.`, and walks the bindings.
    It inserts `String(value)` when the walk ends on a present, non-null value,
    and keeps the match verbatim otherwise.

  Compiled templates are memoised in a cache keyed by the template text.
- **The display tools of `DefaultAgent`**, which share the single field
  `lastShownTopic`:
  - `getImages(topic)` shows a diagram of a cell part on the student's screen.
  - `closeImage()` hides it.

  Both publish data messages to the room.
- **The user and agent names**, which the agent's constructor renders from
  `{{secrets.USER_NAME}}` and `{{secrets.AGENT_NAME}}`, falling back when the
  result is empty.

Modules:

- `Strings` (`strings.dfy`): the string operations the core relies on.
  - `trim`, with the full ECMAScript whitespace set.
  - `split` on one character, with `Join` as its inverse.
  - ASCII `toLowerCase`.
- `Json` (`json.dfy`): the values the bindings hold.
  - Objects, arrays, strings, other primitives (carrying their `String()` text), and `null`.
  - Property access `v[part]` on objects and arrays. Arrays answer to canonical indices and to `length`.
  - `String(v)`.
- `Template` (`template.dfy`): the meaning of the templater as pure functions.
  - `ParseMetadata` and `Bindings` build the bindings.
  - `MatchLen` and `Scan` model the global regular expression. A leftmost scan
    that resumes after each match equals recursion on the suffix, because the
    pattern has no look-behind.
  - `Walk` is a copy of the `for (const part of parts)` loop. `PathValue` is an
    independent definition of where a dotted path leads.
  - `Evaluate` and `RenderText` give the output.
- `Templater` (`templater.dfy`): the `VariableTemplater` class.
  - It has a `cache: map<string, seq<Segment>>` field that `Compile` updates in place.
  - The callback's path walk is a loop in `ReplaceMatch`.
  - Applying a compiled template is a loop over its segments in `Apply`.
- `Agent` (`agent.dfy`): the `DefaultAgent` class, with `lastShownTopic`, an
  outbox of published messages, and the two tool methods.
  - Each method is proved to perform a step function (`GetImagesStep`,
    `CloseImageStep`).
  - The steps preserve a consistency invariant between the recorded topic and
    the diagrams published.

Inputs the model takes as parameters:
- the result of `JSON.parse` on the metadata (`Parse`: a value, or a syntax error);
- the environment as a `map<string, string>`;
- whether the room is present (truthy).

## Model

| member | source | states |
|---|---|---|
| Strings.Trim | src/agent.ts:71 | The trimmed key neither starts nor ends with whitespace and is no longer than the key. |
| Strings.TrimRemovesOnlySpace | src/agent.ts:71 | Trim keeps a contiguous middle part of the key, and everything it drops on either side is whitespace. |
| Strings.TrimIdempotent | src/agent.ts:71 | Trimming a trimmed key changes nothing. |
| Strings.Split | src/agent.ts:72 | `split('.')` yields at least one part, and no part contains a dot. |
| Strings.JoinSplit | src/agent.ts:72 | Joining the parts with "." gives back the trimmed key, so splitting loses nothing. |
| Strings.SplitFirst | src/agent.ts:72 | A dot-free prefix followed by a dot splits into that prefix and then the parts of the rest. |
| Strings.Lower | src/agent.ts:206 | `toLowerCase` keeps the length and lowers each character. |
| Strings.LowerIsLower | src/agent.ts:206 | The normalised topic is lower case, and normalising twice is normalising once. |
| Json.Lookup | src/agent.ts:77 | On an object, a property is found exactly when it is an own key, and then it is that key's value. |
| Json.ArrayIndexLookup | src/agent.ts:77 | Every array element is found under the decimal text of its index. |
| Json.ArrayLookupMiss | src/agent.ts:77 | An array has no property other than its indices and `length`. |
| Json.NatTextOfDecimalValue | src/agent.ts:77 | A canonical index string is the decimal text of the number it denotes, so index lookup is exact. |
| Template.ParseMetadata | src/agent.ts:47-59 | A parsed object or array is kept. Parsed null or a primitive gives `{}` with the warning. A syntax error gives `{}` with no warning. The result is always an object. |
| Template.Namespace | src/agent.ts:106-107 | The `secrets` namespace has exactly the environment's keys, each bound to its string. |
| Template.Bindings | src/agent.ts:37-45 | Without extra namespaces the bindings are `{metadata}`. With them, the keys are `metadata` plus the extras. Every extra namespace wins over `metadata`. The parsed metadata stays bound unless an extra is called `metadata`. |
| Template.MatchLen | src/agent.ts:69 | A match is `{{`, one or more characters other than `}`, then `}}`. |
| Template.MatchLenOf | src/agent.ts:69 | Conversely, `{{key}}` with a non-empty brace-free key is matched whatever follows it. |
| Template.ScanCoversTemplate | src/agent.ts:69-70 | The literal text and the matched text, in scan order, are exactly the template. |
| Template.ScanHolesAreMatches | src/agent.ts:69-70 | Every placeholder the scan finds is a whole match whose key is its capture group. |
| Template.ScanFindsHoleIffMatch | src/agent.ts:69-70 | The scan finds a placeholder exactly when some position of the template starts a match. |
| Template.NoBraceNoMatch | src/agent.ts:69 | A template without `{` contains no match. |
| Template.TripleBraceIsOneMatch | src/agent.ts:69 | `{{{a}}` is one match whose key is `{a`. |
| Template.EmptyBracesAreLiteral | src/agent.ts:69 | `{{}}` contains no match and renders unchanged. |
| Template.WalkFindsPathValue | src/agent.ts:73-81 | The source's loop ends on a present, non-null value exactly when the dotted path leads through objects to that value. |
| Template.ReplacementMeaning | src/agent.ts:73-83 | The callback returns `String(v)` when the path leads to a present, non-null `v`, and the match itself otherwise. |
| Template.SubstitutionMeaning | src/agent.ts:70-84 | The same, for the trimmed and dot-split capture group. |
| Template.PathThroughNonObject | src/agent.ts:75-80 | A path that meets a string, a primitive or null before its last part leads nowhere. |
| Template.EvaluateUnresolved | src/agent.ts:70-86 | When every placeholder is kept verbatim, the output is the text the segments came from. |
| Template.RenderUnresolvedIsIdentity | src/agent.ts:67-86 | When no placeholder of the template resolves, rendering returns the template. |
| Template.RenderWithoutMatchIsIdentity | src/agent.ts:67-86 | A template in which no position starts a match renders unchanged. |
| Template.DocumentPathsRenderUnchanged | src/agent.ts:333-345 | The document paths `cells.txt` and `quiz.txt` render as themselves under any bindings. |
| Template.RenderAround | src/agent.ts:67-86 | Text before a placeholder, when no position in it starts a match, is copied, even if it holds braces. The placeholder becomes its substitution. Scanning resumes after the match, so inserted text is never re-scanned. |
| Template.StrayBraceBeforeMatch | src/agent.ts:69-84 | In `{x{{a}}` the stray `{x` is copied and `{{a}}` is still replaced by its substitution. |
| Template.RenderSinglePlaceholder | src/agent.ts:70-84 | A template that is one placeholder renders as that placeholder's substitution alone. |
| Template.PathOfDottedKey | src/agent.ts:71-72 | A key `ns.field` with plain names walks `ns` and then `field`. |
| Template.DottedKeyRenders | src/agent.ts:70-84 | `{{ns.field}}` renders as `String(v)` when namespace `ns` has a non-null property `field` holding `v`. |
| Template.DottedKeyMissing | src/agent.ts:76-83 | `{{ns.field}}` stays verbatim when namespace `ns` has no property `field`. |
| Template.DottedKeyNull | src/agent.ts:83 | `{{ns.field}}` stays verbatim when the property is null. |
| Templater.ReplaceMatch | src/agent.ts:70-84 | The callback loop returns what `Substitution` specifies for the match and its key. |
| Templater.Apply | src/agent.ts:67-87 | Applying the compiled template to `vars` gives the evaluation of its segments. |
| Templater.VariableTemplater.constructor | src/agent.ts:37-45 | The bindings are `Bindings(metadata, additional)` and the cache starts empty. |
| Templater.VariableTemplater.Compile | src/agent.ts:61-91 | The result is the template's scan. The cache gains exactly that entry. A cached template leaves the cache unchanged. Every cached entry stays the compilation of its key. |
| Templater.VariableTemplater.Render | src/agent.ts:93-95 | The output is `RenderText` of the fixed bindings and the template, and the cache is updated as by `Compile`. |
| Templater.RenderTwice | src/agent.ts:61-95 | Rendering a template twice gives the same text, and the cache gains only that template. |
| Agent.ImageUrl | src/agent.ts:214-222 | A known topic gets its diagram, and an unknown topic gets the cell diagram. The URL is always one of the three. |
| Agent.GetImagesRepeatIsNoOp | src/agent.ts:206-211 | Asking for the recorded topic, in any letter case, changes nothing and says the diagram is already visible. |
| Agent.GetImagesNewTopic | src/agent.ts:212-237 | Any other topic, even an unknown one, is recorded in lower case. With a room, exactly one `show_image` is published, with its diagram and the title `Diagram: <topic>`. The call returns `true`. |
| Agent.GetImagesTwice | src/agent.ts:206-212 | A second call whose topic agrees with the first up to letter case is a no-op. |
| Agent.GetImagesShowOnly | src/agent.ts:222-235 | `getImages` appends at most one message, always a `show_image` with a known diagram, and never a close. |
| Agent.GetImagesSwitch | src/agent.ts:205-237 | Showing one topic and then another records the second. The two diagrams are published back to back, with no close between them. |
| Agent.CloseThenSameTopicIsRepeat | src/agent.ts:242-260 | `closeImage` leaves `lastShownTopic` alone, so asking for the same topic right after a close is a repeat. |
| Agent.CloseImageSendsTwice | src/agent.ts:246-258 | With a room, `closeImage` publishes `close_image` twice and returns the fixed confirmation. |
| Agent.CloseImageWithoutRoomThrows | src/agent.ts:248-256 | Without a room, `closeImage` publishes nothing and throws from the unguarded second publish. |
| Agent.StepKeepsConsistent | src/agent.ts:205-259 | Every tool call preserves the invariant. The recorded topic is lower case. With a room, no topic is recorded exactly when no diagram was published, and a recorded topic's diagram is the last one published. Without a room, nothing is published. |
| Agent.RunKeepsConsistent | src/agent.ts:205-259 | Any sequence of tool calls preserves that invariant. |
| Agent.InitialIsConsistent | src/agent.ts:101 | A fresh agent, with no topic and nothing published, satisfies the invariant. |
| Agent.OrDefault | src/agent.ts:108-109 | The logical-or fallback replaces only the empty string, the one falsy string. |
| Agent.HeaderSecrets | src/agent.ts:106-107 | The headers templater binds `secrets` to the environment. |
| Agent.NameTemplatesText | src/agent.ts:108-109 | The rendered templates are `{{secrets.USER_NAME}}` and `{{secrets.AGENT_NAME}}`. |
| Agent.SecretName | src/agent.ts:106-109 | With a set, non-empty variable, the rendered name is that variable's value. A variable set to the empty string gives the fallback. An unset variable gives the literal placeholder. |
| Agent.UnsetUserNameIsPlaceholder | src/agent.ts:108 | An unset `USER_NAME` makes the user's name the literal `{{secrets.USER_NAME}}`, not "Student". |
| Agent.SetUserName | src/agent.ts:108 | `USER_NAME` set to "" gives "Student", and any other value is used as it is. |
| Agent.AgentNameFallback | src/agent.ts:109 | The same for `AGENT_NAME` and "StudyBuddy". |
| Agent.DefaultAgent.constructor | src/agent.ts:101-109 | The names are rendered from the secrets with their fallbacks. No topic is recorded and nothing is published. The invariant holds. |
| Agent.DefaultAgent.GetImages | src/agent.ts:205-238 | The new topic, the outbox and the reply are exactly those of `GetImagesStep`, and the invariant is kept. |
| Agent.DefaultAgent.CloseImage | src/agent.ts:245-259 | The topic, the outbox and the reply are exactly those of `CloseImageStep`, and the invariant is kept. |

## Behaviour worth noting

The model follows the code in each of these cases:

- **A present but null value.** `String(value ?? match)` keeps the match
  verbatim for null as well as for undefined (`Template.DottedKeyNull`).
- **An unset secret.** The placeholder is kept, so the `|| 'Student'` default
  applies only to a variable set to "" (`Agent.UnsetUserNameIsPlaceholder`).
- **`closeImage` and the display state.** `closeImage` never touches
  `lastShownTopic` (`Agent.CloseThenSameTopicIsRepeat`).
- **`closeImage` without a room.** The second `publishData` at
  src/agent.ts:254 dereferences the room unconditionally, so without a room
  the tool throws a `TypeError` (`Agent.CloseImageWithoutRoomThrows`).
- **Switching images.** The policy is show-only: `getImages` never publishes
  a close before a new show (`Agent.GetImagesSwitch`).

## Left out

- Voice pipeline wiring: the agent definition and entry point, the STT/LLM/TTS/VAD plugins, metrics, the greeting and the CLI runner. These are external library plumbing.
- The `getCells` and `getQuiz` tools, `readCellsDocument` and `readCellsQuizDocument`. They are file reads. Only their templated path is modelled (`Template.DocumentPathsRenderUnchanged`).
- `makeRequest`, axios and the commented-out lesson API methods. These are network I/O.
- The instructions rendered by the plain templater. They are prompt text, and the interpolated names are modelled only up to their rendering.
- The `templater` and `headersTemplater` fields of `DefaultAgent`. The model keeps only the names they produce, because nothing else in the core uses them.
- `JSON.parse` on the metadata. Its outcome is an input (`Parse`).
- `JSON.stringify` and `TextEncoder` on the payloads. Messages are the `Msg` datatype.
- The `reliable` flag and the awaiting of `publishData`. An awaited publish is assumed to succeed, and a rejected publish is not modelled.
- `console.warn` and `console.log`. `ParseMetadata` records only whether the warning is logged.
- `async`/`await` and zod schema validation. Tool calls are modelled as sequential.
- `Strings.Lower`: models ASCII `toLowerCase` only. Unicode case mapping is engine data.
- `Json.ToText`: numbers and booleans carry their `String()` text as given (`Other`), because float formatting is an engine matter. Objects print as "[object Object]". Arrays print as a comma join in which null elements print as "". An object with an own `toString` key is not represented: JSON can give that key only a non-callable value, so `String()` skips it, the inherited `valueOf` returns the object, and the conversion throws a `TypeError`. This applies both directly (`{{metadata}}` with metadata `{"toString":1}`) and for such an object inside an array's join. The model prints `[object Object]` there instead. Elements that are undefined or holes cannot come from `JSON.parse` either and are not represented.
- `Json.Lookup`: sees only own properties (object keys, array indices and `length`). Inherited prototype properties such as `constructor` or `toString` are not modelled, either on the bindings or on the image map in `Agent.ImageUrl`.
- `process.env` access. The environment is a parameter.
- The room object. Only whether it is truthy is modelled.
- `Templater.VariableTemplater.Compile`: the source caches a closure that re-runs the regular expression on every call. The model caches the scan itself. The output is the same because the template is fixed.
- Metadata parsed to a JavaScript value that is not JSON (functions, `undefined` members, symbols) cannot arise from `JSON.parse`, so it is not represented.
