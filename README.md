# easy.video — a Dafny model of its decision logic

easy.video is a chat page that turns a prompt into a generated image or
video through a generative-AI SDK. Almost all of it is glue around that SDK
and a React UI. This project models the deterministic parts that decide
what is generated and what the user sees:

- `Utils` (`src/lib/utils.ts`): `isVideoRequest`, the thirteen-keyword
  test, and `formatTimestamp`, the "Just now" / "Nm ago" / "Nh ago" label.
  The elapsed milliseconds are a parameter instead of `new Date()`.
  `toLocaleDateString()` is an opaque string parameter.
- `Gemini` (`src/lib/gemini.ts`): covers these steps.
  - The text call with its echo fallback.
  - The intent decision on the model's reply, and the seven-keyword
    fallback.
  - The exact enhancement instructions and how one is chosen.
  - The numbered reference-image block.
  - The checks made on image and video responses, and the URLs built from
    them.
  - The fallbacks of `generateImage` and `generateVideoWithImages`, which
    never throw.

  Every SDK call is replaced by a datatype saying what the call did
  (`TextOutcome`, `ImageCall`, `VideoCall`, `DownloadOutcome`).
  `Math.random()` picks are index parameters bounded by their list.
  `Date.now()` readings are `nat` parameters.
- `Page` (`src/app/page.tsx`): the `Home` component as the class
  `ChatPage`, with fields `messages`, `canvasContent` and `isLoading`, and
  `handleSendMessage` as a method.
  - The intent comes from `Gemini.AnalyzePromptIntent`.
  - The `fetch` result is an input datatype.
  - Message ids are parameters.
  - The method is proved against the pure step function `SendStep`.
  - The invariant `Idle` is proved to hold initially and after every send.
    It says that messages alternate after the welcome, and that the canvas
    always shows the latest generated content.
- `Text` holds the string operations these rely on: `toLowerCase`, `trim`,
  `includes`, `some`, numerals in template literals, and `join`/`split`.
  `Wrappers` holds `Option` and `Result`.

Behaviour captured as the code has it:

- `callGeminiTextAPI` returns its own argument when the call fails or the
  reply is empty, and that argument is the instruction text. So a failed
  enhancement yields the whole instruction quoting the user's words, not
  the user's prompt (`EnhanceFailureEchoesInstruction`).
- For the same reason, a failed classification yields video for every
  prompt, because the echoed instruction contains "video"
  (`AnalyzePromptIntent`).
- The keyword `catch` of `analyzePromptIntent` is unreachable, because
  nothing inside its `try` throws. `KeywordFallback` models it on its own.
- The video fallback reports `images.length` reference images without
  filtering by type (`FallbackCountIsUnfiltered`).
- A reader might expect a failed enhancement to return the user's prompt,
  and only image-type references to be counted. The code does neither,
  and the model follows the code.
- The page holds one canvas object that each success overwrites. It does
  not hold an append-only list, whatever the `CanvasProps` type suggests.

## Model

| member | source | states |
|---|---|---|
| `Utils.IsVideoRequest` | src/lib/utils.ts:29-37 | true exactly when one of the 13 keywords is a substring of the lower-cased prompt |
| `Utils.IsVideoRequestIgnoresCase` | src/lib/utils.ts:35-36 | the verdict on a prompt and on its lower-cased form agree |
| `Utils.IsVideoRequestInfix` | src/lib/utils.ts:36 | adding text before or after a video request keeps it one |
| `Utils.ShoutedVideoIsVideoRequest` | src/lib/utils.ts:30-36 | "VIDEO" in capitals anywhere in a prompt makes it a video request |
| `Utils.ElapsedSeconds` | src/lib/utils.ts:10 | whole seconds rounded down, negative differences included: secs*1000 <= ms < secs*1000+1000 |
| `Utils.FormatTimestamp` | src/lib/utils.ts:8-27 | "Just now" below 60 s, including future dates; below an hour, m + "m ago" with m in 1..59 whole minutes elapsed; below a day, h + "h ago" with h in 1..23 whole hours; otherwise the locale date |
| `Utils.MinuteLabelsDistinct` | src/lib/utils.ts:16-19 | two elapsed times in different minutes of the hour get different labels |
| `Utils.RelativeLabelsDisjoint` | src/lib/utils.ts:12-24 | "Just now", minute labels and hour labels never coincide |
| `Text.Lower` | src/lib/utils.ts:35 | same length, with each character lowered (ASCII letters only) |
| `Text.ContainsAny` | src/lib/utils.ts:36 | `some(includes)` is true exactly when some keyword of the list is a substring |
| `Text.ContainsIff` | src/lib/utils.ts:36 | `includes` holds exactly when the substring occurs at some position |
| `Text.ContainsTrim` | src/lib/gemini.ts:194 | trimming never changes whether a space-free word occurs |
| `Text.Decimal` | src/lib/utils.ts:18 | a template-literal number is a non-empty string of digits |
| `Text.DecimalRoundTrip` | src/lib/utils.ts:18 | reading the numeral back gives the number (so numerals are injective) |
| `Text.SplitJoin` | src/lib/gemini.ts:235-237 | splitting at '\n' undoes `join('\n')` when no line contains '\n' |
| `Text.JoinContainsEach` | src/lib/gemini.ts:235-237 | every joined line is a substring of the joined text |
| `Gemini.CallGeminiTextApi` | src/lib/gemini.ts:23-34 | the model's text when non-empty; otherwise, on empty text and on error alike, the input unchanged |
| `Gemini.IntentInstructionMentionsVideo` | src/lib/gemini.ts:180-190 | the lower-cased classification instruction contains "video" whatever the user wrote |
| `Gemini.DecideIntent` | src/lib/gemini.ts:194-206 | video exactly when the lower-cased reply contains "video", so video wins over image; any other reply gives image |
| `Gemini.AnalyzePromptIntent` | src/lib/gemini.ts:179-215 | a failed or empty reply gives video for every prompt; a non-empty reply gives video exactly when it contains "video" |
| `Gemini.KeywordFallback` | src/lib/gemini.ts:207-214 | video exactly when one of the 7 fallback keywords is a substring of the lower-cased prompt |
| `Gemini.KeywordFallbackImpliesVideoRequest` | src/lib/gemini.ts:210-213 | a video verdict of the fallback implies `isVideoRequest` is true |
| `Gemini.KeywordFallbackIsNarrower` | src/lib/gemini.ts:210 | the converse fails: "clip" is a video request but the fallback says image |
| `Gemini.InstructionsDiffer` | src/lib/gemini.ts:120-151 | the image and video instructions differ for every prompt |
| `Gemini.GenerateImagePrompt` | src/lib/gemini.ts:119-135 | the model's text, or on failure the full image instruction |
| `Gemini.GenerateVideoPrompt` | src/lib/gemini.ts:137-154 | the model's text, or on failure the full video instruction |
| `Gemini.EnhancePromptWithGemini` | src/lib/gemini.ts:217-224 | on failure the result is the image instruction iff the type is image, and the video instruction iff the type is video |
| `Gemini.EnhanceFailureEchoesInstruction` | src/lib/gemini.ts:29-32 | a failed enhancement is longer than the prompt and contains the line quoting it |
| `Gemini.DescriptionLines` | src/lib/gemini.ts:235-236 | one line per image, line k is "Image k+1: " followed by the description or "Generated image" when it is missing or empty |
| `Gemini.DescriptionBlockHasOneLinePerImage` | src/lib/gemini.ts:235-237 | the joined block splits back into exactly `images.length` lines |
| `Gemini.EnhanceVideoPromptWithImages` | src/lib/gemini.ts:226-257 | a null or empty list gives `generateVideoPrompt`; otherwise the model's text or, on failure, the context instruction |
| `Gemini.ContextFailureListsEveryImage` | src/lib/gemini.ts:239-256 | a failed context enhancement quotes the prompt and contains every numbered image line |
| `Gemini.CallGeminiImageApi` | src/lib/gemini.ts:37-67 | succeeds exactly when the first image has non-empty bytes, giving "data:image/png;base64," + bytes described by the prompt; an empty or missing list, missing bytes and SDK errors each give their error |
| `Gemini.GenerateImage` | src/lib/gemini.ts:156-175 | never fails: the API result on success, else the placeholder description and a picsum url with an id from the 10-element list; the url is never empty |
| `Gemini.GeneratedImageIffDataUrl` | src/lib/gemini.ts:44-172 | the url is a data URL exactly when the image call produced bytes |
| `Gemini.CallGeminiVideoApi` | src/lib/gemini.ts:86-117 | succeeds exactly when the done operation has a first video and the download works, giving base + "/videos/generated_video_<ts>.mp4", with base defaulting to http://localhost:3000; each missing part gives its error |
| `Gemini.VideoUrlServesDownloadPath` | src/lib/gemini.ts:96-109 | the returned address is the base followed by the written path below `public` |
| `Gemini.VideoUrlsUnique` | src/lib/gemini.ts:96-98 | different timestamps give different addresses |
| `Gemini.GenerateVideoWithImages` | src/lib/gemini.ts:259-297 | never fails: the API result on success, else one of the 3 sample urls and a description reporting `images.length` |
| `Gemini.FallbackCountsDiffer` | src/lib/gemini.ts:294 | fallback descriptions for different counts differ |
| `Gemini.FallbackCountIsUnfiltered` | src/lib/gemini.ts:292-295 | an image plus a video reports 2 references, not the 1 image |
| `Page.InitialState` | src/app/page.tsx:76-93 | one welcome message with id "1", an all-null canvas, not loading |
| `Page.RequestFor` | src/app/page.tsx:109-119 | the video route iff the intent is video, else the image route; the body is the prompt alone |
| `Page.SuccessTextMentionsDownloadIffVideo` | src/app/page.tsx:149-151 | the success text ends with the auto-download note iff the content is a video |
| `Page.SendAppendsTwo` | src/app/page.tsx:96-170 | a send adds exactly two messages, the user's message with its content and then an assistant reply; earlier messages are kept in place; loading ends false |
| `Page.SendSuccess` | src/app/page.tsx:133-161 | on an ok response the canvas is replaced by {intent, data.url, user content}, which equals the reply's generated content |
| `Page.SendFailure` | src/app/page.tsx:121-122 | on a thrown fetch, a non-ok response or an unreadable body, one apology without content is appended and the canvas is unchanged |
| `Page.InitialIsIdle` | src/app/page.tsx:76-93 | the initial state satisfies the between-sends invariant |
| `Page.SendKeepsIdle` | src/app/page.tsx:95-174 | every send preserves the invariant: roles alternate after the welcome, and the canvas shows the latest generated content |
| `Page.ChatPage.constructor` | src/app/page.tsx:76-93 | the fields start in the initial state, which is idle |
| `Page.ChatPage.BeginSend` | src/app/page.tsx:96-104 | appends the user message carrying the content, then sets loading true; the canvas is unchanged |
| `Page.ChatPage.HandleSendMessage` | src/app/page.tsx:95-174 | under the submit gate (trimmed, non-empty, not loading; src/components/ChatSidebar.tsx:22-23): posts `RequestFor(content, intent)`; the new state is `SendStep` of the old one; the invariant is kept |

## Left out

- SDK calls (`generateContent`, `generateImages`, `generateVideos`, `getVideosOperation`, `files.download`): foreign network calls, replaced by outcome datatypes.
- The video polling loop: it is unbounded and driven by a timer. Only the checks made once the operation is done are modelled. A call that never finishes is not represented.
- Writing the video file, and `downloadVideoFile` with its fetch, Blob, DOM anchor and `setTimeout`: I/O, left out. The automatic download started after a video success has no effect on the modelled state.
- `Math.random`, `Date.now`, `generateUniqueId` and message timestamps: replaced by index, number and id parameters. Timestamps are not stored in messages.
- `cn`, `toLocaleDateString` and `toLocaleTimeString`: styling and locale formatting. The locale date is an opaque parameter.
- `Text.Lower`: lowers only ASCII letters, whereas `toLowerCase` is Unicode-wide.
- `Text.Trim`: strips only the ASCII white space plus no-break space, byte-order mark and the two Unicode line terminators, not every Unicode space separator.
- `Utils.FormatTimestamp`: a date whose `getTime()` is NaN is not modelled; elapsed time is an integer.
- `Page.ChatPage.HandleSendMessage`: a `data.url` that is a truthy non-string would throw inside the log call at src/app/page.tsx:130. That case is not modelled: `data.url` is either absent or a string.
- `Gemini.DescriptionBlockHasOneLinePerImage`: requires that no description contains a line break. A description that contains one adds lines of its own, so the block then has more lines than images.
- `Gemini.GenerateVideoWithImages`: takes a list, so a `null` argument is not represented. Such an argument would throw at src/lib/gemini.ts:264, before the `try`.
- UI components (Canvas, the rendering in ChatSidebar, layout) are JSX and visual state. ChatSidebar's submit gate appears only as a precondition.
- API routes: thin request wrappers, left out. The generate-video route imports a `generateVideo` that `src/lib/gemini.ts` does not export. The chat route returns canned replies. The analyze-intent route's fallback lowercases the request object rather than the prompt.
- `next.config.js` (configuration) and `src/types/chat.ts` (shapes only; its `Message` shape is the one used).
